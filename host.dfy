/**
 * The part of the Obsidian host that the manager calls: the vault of
 * markdown notes and folders, the metadata cache of parsed front matter,
 * the front-matter writer and the clock. The vault is an in-memory map from
 * path to note text. Every host call that can throw is modelled as an
 * outcome the caller cannot predict: it either does what it promises or
 * reports failure and changes nothing.
 */
module Host {
  import opened Wrappers
  import opened Types

  /** What `metadataCache.getFileCache(file)?.frontmatter || {}` yields for `path`. */
  function MetadataOf(metadata: map<string, TaskMetadata>, path: string): (r: TaskMetadata)
    ensures path in metadata ==> r == metadata[path]
    ensures path !in metadata ==> r == EMPTY_METADATA
  {
    if path in metadata then metadata[path] else EMPTY_METADATA
  }

  class App {
    /** The markdown notes of the vault: path to text. */
    var files: map<string, string>
    var folders: set<string>
    /** The metadata cache: parsed front matter per note. */
    var metadata: map<string, TaskMetadata>
    /** The raw `scheduled date` front-matter key, as processFrontMatter last wrote it per note. */
    var scheduledDates: map<string, string>

    constructor(files: map<string, string>, folders: set<string>, metadata: map<string, TaskMetadata>)
      ensures this.files == files && this.folders == folders && this.metadata == metadata
      ensures scheduledDates == map[]
    {
      this.files := files;
      this.folders := folders;
      this.metadata := metadata;
      scheduledDates := map[];
    }

    /** The cached front matter of `path`, or the empty record. */
    function Metadata(path: string): (r: TaskMetadata)
      reads this
      ensures path in metadata ==> r == metadata[path]
      ensures path !in metadata ==> r == EMPTY_METADATA
    {
      MetadataOf(metadata, path)
    }

    /** `vault.getMarkdownFiles()`: every note once, in an order the host chooses. */
    method ListMarkdownFiles() returns (paths: seq<string>)
      ensures PairwiseDistinct(paths)
      ensures forall p :: p in paths <==> p in files
    {
      var rest := files.Keys;
      paths := [];
      while rest != {}
        invariant rest <= files.Keys
        invariant PairwiseDistinct(paths)
        invariant forall p :: p in paths <==> p in files && p !in rest
        decreases |rest|
      {
        var p :| p in rest;
        paths := paths + [p];
        rest := rest - {p};
      }
    }

    /** `vault.adapter.exists(path)`: a note or a folder is there. */
    method Exists(path: string) returns (b: bool)
      ensures b <==> path in files || path in folders
    {
      b := path in files || path in folders;
    }

    /** `vault.createFolder(path)`. */
    method CreateFolder(path: string) returns (ok: bool)
      modifies this
      ensures files == old(files) && metadata == old(metadata) && scheduledDates == old(scheduledDates)
      ensures folders == if ok then old(folders) + {path} else old(folders)
    {
      ok := *;
      if ok {
        folders := folders + {path};
      }
    }

    /** `vault.create(path, content)`: refuses a path that is already taken. */
    method Create(path: string, content: string) returns (ok: bool)
      modifies this
      ensures folders == old(folders) && metadata == old(metadata) && scheduledDates == old(scheduledDates)
      ensures ok ==> path !in old(files) && files == old(files)[path := content]
      ensures !ok ==> files == old(files)
    {
      if path in files {
        ok := false;
      } else {
        ok := *;
        if ok {
          files := files[path := content];
        }
      }
    }

    /** `vault.read(file)`: the text of an existing note, unless reading fails. */
    method Read(path: string) returns (r: Option<string>)
      ensures r.Some? ==> path in files && r.value == files[path]
      ensures path !in files ==> r.None?
    {
      if path !in files {
        r := None;
      } else {
        var ok: bool := *;
        r := if ok then Some(files[path]) else None;
      }
    }

    /** `vault.modify(file, content)`: replaces the text of an existing note. */
    method Modify(path: string, content: string) returns (ok: bool)
      modifies this
      ensures folders == old(folders) && metadata == old(metadata) && scheduledDates == old(scheduledDates)
      ensures ok ==> path in old(files) && files == old(files)[path := content]
      ensures !ok ==> files == old(files)
    {
      if path !in files {
        ok := false;
      } else {
        ok := *;
        if ok {
          files := files[path := content];
        }
      }
    }

    /** `vault.delete(file)`: the note and its cache entry go. */
    method Delete(path: string) returns (ok: bool)
      modifies this
      ensures folders == old(folders) && scheduledDates == old(scheduledDates)
      ensures ok ==> path in old(files) && files == old(files) - {path} && metadata == old(metadata) - {path}
      ensures !ok ==> files == old(files) && metadata == old(metadata)
    {
      if path !in files {
        ok := false;
      } else {
        ok := *;
        if ok {
          files := files - {path};
          metadata := metadata - {path};
        }
      }
    }

    /** `fileManager.processFrontMatter(file, fm => fm['scheduled date'] = date)`. */
    method ProcessScheduledDate(path: string, date: string) returns (ok: bool)
      modifies this
      ensures files == old(files) && folders == old(folders) && metadata == old(metadata)
      ensures ok ==> path in old(files) && scheduledDates == old(scheduledDates)[path := date]
      ensures !ok ==> scheduledDates == old(scheduledDates)
    {
      if path !in files {
        ok := false;
      } else {
        ok := *;
        if ok {
          scheduledDates := scheduledDates[path := date];
        }
      }
    }

    /** `new Date()`: some moment whose local fields are in range. */
    method Now() returns (t: Instant)
      ensures ValidInstant(t)
    {
      assert ValidInstant(Instant(1970, 0, 1, 0, 0, 0, "1970-01-01T00:00:00.000Z"));
      t :| ValidInstant(t);
    }
  }
}
