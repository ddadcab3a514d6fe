/**
 * `save_toc_structure` / `load_toc_structure`: the one cache file that holds
 * the last table of contents. The file is modelled by its state; JSON
 * encoding is not modelled (a tree always serialises).
 */
module TocCache {
  import opened Wrappers
  import opened TocPartition

  /** What the cache path holds: nothing, a tree, or content that does not parse. */
  datatype CacheFile = Absent | Holds(tree: seq<TocNode>) | Unreadable

  /** What a load returns for a given file state: the tree, or `None` for a missing or unreadable file. */
  function Read(file: CacheFile): (r: Option<seq<TocNode>>)
    ensures r.Some? <==> file.Holds?
    ensures file.Holds? ==> r.value == file.tree
  {
    match file
    case Holds(tree) => Some(tree)
    case _ => None
  }

  class Cache {
    var file: CacheFile

    constructor ()
      ensures file == Absent
    {
      file := Absent;
    }

    /**
     * Overwrites the file with `structure`. When the file cannot be opened
     * for writing the error is only logged: the call returns normally and
     * the file keeps its previous content.
     */
    method Save(structure: seq<TocNode>, writable: bool)
      modifies this
      ensures file == if writable then Holds(structure) else old(file)
    {
      if writable {
        file := Holds(structure);
      }
    }

    /** The cached tree, or `None` (never an error) when the file is missing or unreadable. */
    method Load() returns (r: Option<seq<TocNode>>)
      ensures r == Read(file)
      ensures r.Some? <==> file.Holds?
    {
      match file
      case Holds(tree) => r := Some(tree);
      case Absent => r := None;
      case Unreadable => r := None;
    }
  }

  /** A load before any save is a miss; a successful save is read back unchanged; a failed save leaves what a load returns as it was. */
  method SaveLoadScenario(first: seq<TocNode>, second: seq<TocNode>)
  {
    var cache := new Cache();
    var r := cache.Load();
    assert r == None;
    cache.Save(first, true);
    r := cache.Load();
    assert r == Some(first);
    cache.Save(second, false);
    r := cache.Load();
    assert r == Some(first);
  }
}
