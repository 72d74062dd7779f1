# ex_typst world: resolution layer in Dafny

This project models the in-memory resolution layer of `SystemWorld`, the object that
ex_typst's native library hands to the typst compiler as its "world". That layer covers:

- lexical path normalisation (`normalize`), used to build a second cache key for
  canonical paths;
- the two-level path cache behind `slot`. `hashes` maps a path to its identity or to its
  failure. `paths` maps an identity to a slot, and every spelling of that identity shares
  the one slot;
- the source registry: `insert`, `source`, `file`, `reset`, and the reset / insert /
  set-main prologue of `compile`;
- the compute-once font cell of `World::font`;
- font discovery by `FontSearcher`. `search_file` adds one book entry and one font slot
  per face, in lock-step. `search_dir` passes exactly eight extension spellings through
  its filter.

Each module follows a part of `native/extypst_nif/src/lib.rs`:

| module | file | contents |
|---|---|---|
| `Wrappers` | wrappers.dfy | `Option`, `Result`, and `Cell` (the once-cell: `Empty` or `Full`) |
| `Paths` | paths.dfy | path components, `Normalize` and the function `Normalized` it is proved against, file names and extensions |
| `Files` | files.dfy | `FileError`, bytes, the `read` helper over an abstract file system |
| `Registry` | registry.dfy | `FileId`, `Source`, first-match lookup, UTF-8 bytes of a text |
| `Resolution` | resolution.dfy | `PathHash`, `PathSlot`, and the effect of one `slot` call on both caches |
| `Fonts` | fonts.dfy | `FontSlot`, font catalogues, the `FontSearcher` class, lazy decoding |
| `World` | world.dfy | the `SystemWorld` class: its fields, constructor, `Slot`, `Insert`, `Reset`, accessors, the compile prologue |

The operating system is not modelled. Each OS query is a function-typed parameter:

- `identify` stands for `PathHash::new`.
- `canonicalize` stands for `Path::canonicalize`.
- `FileSystem` holds `fs::metadata` and `fs::read`.
- `Probe` stands for opening, memory-mapping and `FontInfo::iter`.
- `Walk` stands for the sorted `WalkDir` traversal.
- `Parser` stands for `Font::new`.

Memoisation is therefore stated as follows: a second call answers from the cache
whatever those parameters say on that call.

Three behaviours of `native/extypst_nif/src/lib.rs` that the model keeps as written:

- The extension filter (lib.rs:299-301) admits exactly the eight spellings
  `ttf otf TTF OTF ttc otc TTC OTC`. It is case-sensitive, so `Arial.Ttf` is refused.
- On a miss, `slot` (lib.rs:117-124) caches the outcome of hashing, failure included,
  under the path and, when `canonicalize` succeeds, under the normalised canonical path.
  That insert overwrites whatever the canonical key held before.
- The `PathSlot` cells (lib.rs:44-47) are never filled. Nothing in lib.rs calls `slot`,
  and `source`/`file` read the registry. The model creates the slots empty and never
  fills them.

## Model

| member | source | states |
|---|---|---|
| `Paths.Normalize` | native/extypst_nif/src/lib.rs:346-361 | the push/pop loop returns `Normalized(path)`, and the result has no `.` and no normal component directly followed by `..` |
| `Paths.NormalizedIsReduced` | native/extypst_nif/src/lib.rs:346-361 | every normalised path has no `.` and no normal component directly followed by `..` |
| `Paths.ReducedIsFixed` | native/extypst_nif/src/lib.rs:346-361 | a path that is already reduced is left unchanged |
| `Paths.NormalizeIdempotent` | native/extypst_nif/src/lib.rs:346-361 | normalising twice gives the same result as normalising once |
| `Paths.AppendCongruence` | native/extypst_nif/src/lib.rs:348-359 | two paths that normalise alike still normalise alike after the same suffix is appended |
| `Paths.CurIsDropped` | native/extypst_nif/src/lib.rs:350 | a `.` anywhere in a path does not change its normal form |
| `Paths.ParentCancelsNormal` | native/extypst_nif/src/lib.rs:351-354 | a `..` directly after a normal component cancels it, wherever the pair stands |
| `Paths.ParentKept` | native/extypst_nif/src/lib.rs:351-355 | a `..` is kept verbatim when the normalised prefix is empty or ends in a root, a prefix or a `..` |
| `Paths.NoParentOnlyDropsCur` | native/extypst_nif/src/lib.rs:348-358 | without `..`, normalising only removes the `.` components and keeps the rest in order |
| `Paths.NormalizedSubMultiset` | native/extypst_nif/src/lib.rs:346-361 | normalising never introduces a component: the output is a sub-multiset of the input |
| `Paths.FileName` | native/extypst_nif/src/lib.rs:300 | a path has a file name exactly when its last component is a normal one |
| `Paths.ExtensionCharacterized` | native/extypst_nif/src/lib.rs:300 | a name other than `..` has extension `e` exactly when it is a non-empty stem, a dot and a dot-free `e` |
| `Registry.FindSource` | native/extypst_nif/src/lib.rs:62-68 | succeeds exactly when some registered source has the id; the result is the first such source; otherwise the error is `NotSource` |
| `Registry.FindAfterAppend` | native/extypst_nif/src/lib.rs:134-139 | appending a source never shadows an earlier one with the same id; the new source is found only when the id was missing before |
| `Registry.EncodeChar` | native/extypst_nif/src/lib.rs:71 | one character becomes 1, 2, 3 or 4 UTF-8 bytes exactly when its code is below 0x80, below 0x800, below 0x10000, or above; the lead byte's class gives the length; continuation bytes lie in 0x80-0xBF; the payload bits of the bytes, most significant first, spell the character's code |
| `Registry.Utf8Length` | native/extypst_nif/src/lib.rs:71 | the bytes of a text are at least as many as its characters, and exactly as many only for ASCII text, whose bytes are the character codes |
| `Resolution.SlotLookup` | native/extypst_nif/src/lib.rs:114-132 | a hit returns the cached outcome, success or failure, and leaves `hashes` alone; a miss records the computed outcome under the path and, when `canonicalize` succeeds, under the normalised canonical path, and leaves the other keys alone; a failure leaves `paths` alone; a success reaches the existing slot or adds one empty slot |
| `Resolution.SlotKeepsCovered` | native/extypst_nif/src/lib.rs:117-131 | if every cached successful identity has a slot before a `slot` call, it still does afterwards |
| `Resolution.SlotMemoised` | native/extypst_nif/src/lib.rs:117-127 | a repeated call on the same path gives the same outcome and leaves both caches unchanged, whatever the hash and canonicalisation would now return |
| `Resolution.SharedSlot` | native/extypst_nif/src/lib.rs:129-131 | a second path whose identity equals the first one's reaches the same slot and leaves `paths` unchanged |
| `Resolution.CanonicalSpellingHits` | native/extypst_nif/src/lib.rs:120-123 | after a miss, the normalised canonical spelling is a hit with the same outcome, without being hashed itself |
| `Fonts.FontFileCharacterized` | native/extypst_nif/src/lib.rs:299-302 | a path passes the filter exactly when its last component is a non-empty stem, a dot and one of the eight spellings |
| `Fonts.ExtensionSpellingsAdmitted` | native/extypst_nif/src/lib.rs:301 | `Arial.ttf` and `/fonts/Noto.TTC` pass the filter |
| `Fonts.MixedCaseRefused` | native/extypst_nif/src/lib.rs:301 | `Arial.Ttf` and `Arial.tTF` are refused |
| `Fonts.OtherNamesRefused` | native/extypst_nif/src/lib.rs:300-301 | `.ttf`, `ttf`, `Arial.woff` and a path ending in `..` are refused |
| `Fonts.RefusedAt` | native/extypst_nif/src/lib.rs:299-302 | a name whose text after its last dot (not at the start) is none of the eight spellings is refused |
| `Fonts.FileCatalog` | native/extypst_nif/src/lib.rs:309-323 | one file adds as many book entries as slots, all slots empty; a file that cannot be opened or mapped adds nothing |
| `Fonts.DirCatalog` | native/extypst_nif/src/lib.rs:291-306 | a directory search keeps the book and the slots in lock-step, with every slot empty |
| `Fonts.FontFiles` | native/extypst_nif/src/lib.rs:296-304 | the files searched are exactly the readable walk entries that pass the extension filter: each searched file is such an entry, and each such entry is searched |
| `Fonts.FilesCatalog` | native/extypst_nif/src/lib.rs:98-100 | searching a list of files keeps the book and the slots in lock-step |
| `Fonts.DirsCatalog` | native/extypst_nif/src/lib.rs:95-97 | searching a list of directories keeps the book and the slots in lock-step |
| `Fonts.DirIsFilesInWalkOrder` | native/extypst_nif/src/lib.rs:291-306 | searching a directory equals searching its admitted files one after the other in walk order; walk errors and other extensions add nothing |
| `Fonts.FileIndexed` | native/extypst_nif/src/lib.rs:313-319 | in a file with fewer than 2^32 faces, the book entries are the file's records in order, slot k names the file and face index k, and so book entry k is record `fonts[k].index` of `fonts[k].path` |
| `Fonts.FilesIndexed` | native/extypst_nif/src/lib.rs:309-323 | when every file holds fewer than 2^32 faces (`RecordsFit`), after searching the files, book entry k is record `fonts[k].index` of file `fonts[k].path` |
| `Fonts.DirIndexed` | native/extypst_nif/src/lib.rs:291-323 | when every admitted file of the walk holds fewer than 2^32 faces (`RecordsFit`), after the directory search, book entry k is record `fonts[k].index` of file `fonts[k].path` |
| `Fonts.DirsIndexed` | native/extypst_nif/src/lib.rs:95-97 | when every admitted file of every directory holds fewer than 2^32 faces (`DirsFit`), after searching the directories, book entry k is record `fonts[k].index` of file `fonts[k].path` |
| `Fonts.FontSearcher.constructor` | native/extypst_nif/src/lib.rs:228-234 | a new searcher has an empty book and no slots |
| `Fonts.FontSearcher.SearchFile` | native/extypst_nif/src/lib.rs:308-323 | the book and slots become the old ones followed by this file's records and their empty slots, and earlier entries are unchanged |
| `Fonts.FontSearcher.SearchDir` | native/extypst_nif/src/lib.rs:290-306 | the book and slots become the old ones followed by the catalogue of the walk's admitted files, in walk order |
| `Fonts.FontSearcher.SearchDirs` | native/extypst_nif/src/lib.rs:95-97 | searching each directory of a list in order appends the list's catalogue: the old book and slots followed by each directory's, in list order |
| `Fonts.FontSearcher.SearchFiles` | native/extypst_nif/src/lib.rs:98-100 | searching each file of a list in order appends the list's catalogue: the old book and slots followed by each file's records and empty slots, in list order |
| `Fonts.GetFont` | native/extypst_nif/src/lib.rs:74-83 | the cell ends up full of the returned value; a full cell returns its value; an empty cell returns the outcome of `LoadFont`, the `get_or_init` closure of lib.rs:77-81 (no font when the read fails, else a font of the bytes and the slot's index exactly when the face parses) |
| `Fonts.FontMemoised` | native/extypst_nif/src/lib.rs:74-83 | after the first call, later calls return the same value, a cached absence included, and change nothing, whatever the file system or parser would now say |
| `World.SystemWorld.constructor` | native/extypst_nif/src/lib.rs:91-112 | the book and slots are the system directories' catalogue, then the extra directories', then the extra files', in lock-step with empty cells; the caches and registry start empty; main is the detached source |
| `World.ConstructedCatalogIndexed` | native/extypst_nif/src/lib.rs:91-101 | when no searched file holds 2^32 faces or more, every book entry k the constructor builds is record `fonts[k].index` of file `fonts[k].path` |
| `World.SystemWorld.Slot` | native/extypst_nif/src/lib.rs:114-132 | the returned identity and both new caches are those of `SlotLookup` on the old caches, and a returned identity has its slot |
| `World.SystemWorld.Insert` | native/extypst_nif/src/lib.rs:134-139 | returns the path's file id and appends exactly one source with that id and text, keeping the earlier entries |
| `World.SystemWorld.Reset` | native/extypst_nif/src/lib.rs:141-145 | the registry and both caches are empty afterwards; fonts, book, root, library and main are outside its frame |
| `World.SystemWorld.SourceFor` | native/extypst_nif/src/lib.rs:62-68 | a found source is registered and has the id; the lookup fails exactly when no registered source has the id, and then with `NotSource` |
| `World.SystemWorld.FileFor` | native/extypst_nif/src/lib.rs:70-72 | succeeds exactly when the source lookup does and then gives the UTF-8 bytes of its text; otherwise fails with `NotSource` |
| `World.SystemWorld.FontAt` | native/extypst_nif/src/lib.rs:74-83 | keeps book and slots in lock-step; the value and the new slot are those of `GetFont` on the old slot; the other slots are unchanged; a filled slot answers from its cell and changes nothing |
| `World.SystemWorld.BeginCompile` | native/extypst_nif/src/lib.rs:147-149 | afterwards the registry holds only the markup source and main is that source; both caches are empty; every other id fails with `NotSource` |

## Left out

- Path parsing: the model takes the component list that `Path::components` yields. The
  folding of repeated separators and interior `.` is not modelled. Neither is the
  replacement of the buffer when `PathBuf::push` receives a root, which cannot happen
  because components only yield a prefix or a root at the start.
- File names that are not valid UTF-8: names are strings, so `to_str` never fails.
- `PathHash::new`: the SipHash-1-3 hashing of a `same_file::Handle` is foreign and
  OS-dependent. Its result is a parameter. So are `Path::canonicalize`, `fs::metadata`
  and `fs::read`.
- `VirtualPath::new`: it is not part of this model. A file id keeps the path it is given.
- `Mmap::map`, `FontInfo::iter` and `Font::new` parse binary fonts in a library outside
  this model. The record list, and whether a face parses, are parameters.
- `WalkDir`: the recursive, link-following, name-sorted walk is a parameter that yields
  entries in walk order.
- `search_system`: the per-OS directory lists and the macOS asset-directory scan are
  configuration. The constructor takes the system directories as an ordered list.
- `typst::compile`, `typst::export::pdf`, `typst_library::build` and `Prehashed` are
  external compiler, export and library calls. `today` is `unimplemented!()`.
- Diagnostic formatting in `compile` (lines 161-191) depends on typst spans and panics
  through `expect`/`unwrap`. It starts with `"compile error:\n"`. It adds
  `"stacktrace:\n"` only for a non-empty trace. It puts no newline between diagnostics.
- The `compile` entry point and `String::from_utf8_unchecked` are foreign-function glue.
- The `library`, `book` and `main` accessors just return fields, and those are modelled
  as fields.
- `Files.Read`: the `read` helper (lib.rs:211-219) over the `FileSystem` parameter. It
  only passes on the parameter's answers, with `IsDirectory` for a directory, so it is a
  helper of `LoadFont` and states nothing of its own.
- `World.SystemWorld.FontAt`: requires `Valid() && id < |book|`; `Valid()` makes `|book|`
  equal to `|fonts|`, so this is `id < |fonts|`. lib.rs panics on an out-of-range
  index (`self.fonts[id]`), and a panic is not modelled.
- `World.ConstructedCatalogIndexed`: ties book entry k to record `fonts[k].index` of the
  `FontInfo::iter` output (`Probe`), not to the face that `Font::new` decodes (`Parser`).
  That `font(k)` decodes the face the book describes holds only if the i-th record of
  `FontInfo::iter` is face i of the file. The font library outside this model would have to
  guarantee that, and lib.rs:313 relies on it without a check.
- `World.SystemWorld.Slot`: returns the `PathHash` key of the slot instead of the
  `RefMut` into `paths` that lib.rs:114 returns; the slot is `paths[key]`.
- `RefCell` borrow panics: the world is single-owner and single-threaded, so the maps
  are plain fields.
