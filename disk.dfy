/** The filesystem the core touches, reduced to what it observes: a map
    from full paths to files and folders, each folder holding its listing,
    and the game-mods link.  `os.listdir`, `os.path.exists`, `os.path.isdir`,
    `shutil.copy`, `os.remove` and zip opening are functions of that map. */
module Disk {
  import opened Wrappers
  import opened Seqs
  import opened Paths
  import opened Zip

  /** A file is a readable zip archive or not (`None`); a folder has its
      listing in `os.listdir` order. */
  datatype Node = File(zip: Option<Archive>) | Dir(entries: seq<string>)

  type Nodes = map<string, Node>

  /** What every real disk satisfies: no path ends in a name holding `:`,
      and listing entries are plain names that appear once. */
  ghost predicate WellFormed(nodes: Nodes) {
    && (forall p :: p in nodes ==> ':' !in Basename(p))
    && (forall p :: p in nodes && nodes[p].Dir? ==> SoundListing(nodes[p].entries))
  }

  /** A listing names each entry once, by a plain name. */
  ghost predicate SoundListing(entries: seq<string>) {
    Distinct(entries) && forall e :: e in entries ==> Plain(e)
  }

  predicate IsDir(nodes: Nodes, p: string) {
    p in nodes && nodes[p].Dir?
  }

  /** `os.listdir(p)`. */
  function ListDir(nodes: Nodes, p: string): (r: Result<seq<string>>)
    ensures r.Ok? <==> IsDir(nodes, p)
    ensures r.Ok? ==> r.value == nodes[p].entries
    ensures r.Err? ==> r.error == if p in nodes then NotADirectoryError else FileNotFoundError
  {
    if p !in nodes then Err(FileNotFoundError)
    else match nodes[p]
      case File(_) => Err(NotADirectoryError)
      case Dir(entries) => Ok(entries)
  }

  /** `os.chdir(p)`: only an existing folder can be entered. */
  function ChangeDir(nodes: Nodes, p: string): (r: Outcome)
    ensures r.Pass? <==> IsDir(nodes, p)
    ensures r.Fail? ==> r.error == if p in nodes then NotADirectoryError else FileNotFoundError
  {
    if p !in nodes then Fail(FileNotFoundError)
    else if nodes[p].File? then Fail(NotADirectoryError)
    else Pass
  }

  /** `ZipFile(p)`: the archive of a readable zip file, or the error opening it. */
  function OpenZip(nodes: Nodes, p: string): (r: Result<Archive>)
    ensures r.Ok? <==> p in nodes && nodes[p].File? && nodes[p].zip.Some?
    ensures r.Ok? ==> r.value == nodes[p].zip.value
  {
    if p !in nodes then Err(FileNotFoundError)
    else match nodes[p]
      case Dir(_) => Err(IsADirectoryError)
      case File(None) => Err(BadZipFile)
      case File(Some(a)) => Ok(a)
  }

  /** Where `shutil.copy(src, folder)` writes: inside `folder` under the
      base name of `src` when `folder` is a folder, `folder` itself
      otherwise. */
  function CopyTarget(nodes: Nodes, src: string, folder: string): string {
    if IsDir(nodes, folder) then Join(folder, Basename(src)) else folder
  }

  /** `shutil.copy(src, folder)`.  Copying a file onto itself raises
      `SameFileError` before anything is opened; then the source must be an
      existing file and the target must not be a folder.  Into a folder the
      copy replaces a file of the same name, and a new name joins the end
      of the listing; a `folder` that is a file is overwritten. */
  function Copy(nodes: Nodes, src: string, folder: string): (r: Result<Nodes>)
    ensures r.Ok? <==> src in nodes && nodes[src].File? && folder in nodes
                       && CopyTarget(nodes, src, folder) != src && !IsDir(nodes, CopyTarget(nodes, src, folder))
    ensures src in nodes && CopyTarget(nodes, src, folder) == src ==> r == Err(SameFileError)
    ensures src !in nodes ==> r == Err(FileNotFoundError)
    ensures r.Ok? ==> var dst := CopyTarget(nodes, src, folder);
              && dst in r.value && r.value[dst] == nodes[src]
              && (forall p :: p != dst && p != folder ==> (p in r.value <==> p in nodes))
              && (forall p :: p in nodes && p != dst && p != folder ==> r.value[p] == nodes[p])
    ensures r.Ok? && IsDir(nodes, folder) ==>
              && IsDir(r.value, folder) && Basename(src) in r.value[folder].entries
              && r.value[folder].entries == if Basename(src) in nodes[folder].entries then nodes[folder].entries
                                            else nodes[folder].entries + [Basename(src)]
    ensures r.Ok? && !IsDir(nodes, folder) ==> r.value == nodes[folder := nodes[src]]
    ensures r.Ok? && WellFormed(nodes) ==> WellFormed(r.value)
  {
    var dst := CopyTarget(nodes, src, folder);
    if src in nodes && dst == src then Err(SameFileError)
    else if src !in nodes then Err(FileNotFoundError)
    else if nodes[src].Dir? then Err(IsADirectoryError)
    else if IsDir(nodes, dst) then Err(IsADirectoryError)
    else if folder !in nodes then Err(FileNotFoundError)
    else if !IsDir(nodes, folder) then Ok(nodes[folder := nodes[src]])
    else
      var r := Deposit(nodes, folder, Basename(src), dst, nodes[src]);
      assert WellFormed(nodes) ==> WellFormed(r) by {
        if WellFormed(nodes) {
          BasenameOfJoin(folder, Basename(src));
          DepositWellFormed(nodes, folder, dst, r);
        }
      }
      Ok(r)
  }

  /** The disk once `node` is written at `dst`, the entry `name` of the
      folder `folder`: the listing gains `name` at its end unless it has it. */
  function Deposit(nodes: Nodes, folder: string, name: string, dst: string, node: Node): (r: Nodes)
    requires IsDir(nodes, folder) && dst != folder && node.File?
    ensures dst in r && r[dst] == node
    ensures forall p :: p != dst && p != folder ==> (p in r <==> p in nodes)
    ensures forall p :: p in nodes && p != dst && p != folder ==> r[p] == nodes[p]
    ensures IsDir(r, folder) && name in r[folder].entries
    ensures r[folder].entries == if name in nodes[folder].entries then nodes[folder].entries else nodes[folder].entries + [name]
    ensures SoundListing(nodes[folder].entries) && Plain(name) ==> SoundListing(r[folder].entries)
  {
    var listed := Listed(nodes[folder].entries, name);
    UpdatedTwice(nodes, dst, node, folder, Dir(listed));
    nodes[dst := node][folder := Dir(listed)]
  }

  /** A listing once `name` is written into its folder. */
  function Listed(entries: seq<string>, name: string): (r: seq<string>)
    ensures name in r
    ensures SoundListing(entries) && Plain(name) ==> SoundListing(r)
  {
    if name in entries then entries
    else
      assert Distinct(entries) ==> Distinct(entries + [name]) by {
        if Distinct(entries) {
          forall i, j | 0 <= i < j < |entries + [name]| ensures (entries + [name])[i] != (entries + [name])[j] {
            if j < |entries| {
              assert (entries + [name])[i] == entries[i] && (entries + [name])[j] == entries[j];
            } else {
              assert (entries + [name])[i] == entries[i] && (entries + [name])[j] == name;
            }
          }
        }
      }
      entries + [name]
  }

  lemma UpdatedTwice<K, V>(m: map<K, V>, a: K, va: V, b: K, vb: V)
    ensures forall k :: k != a && k != b ==> (k in m[a := va][b := vb] <==> k in m)
    ensures forall k :: k in m && k != a && k != b ==> m[a := va][b := vb][k] == m[k]
  {
  }

  /** Writing a file with a name of no `:` and a sound listing into a
      well-formed disk keeps it well formed. */
  lemma DepositWellFormed(nodes: Nodes, folder: string, dst: string, r: Nodes)
    requires WellFormed(nodes) && folder in nodes && ':' !in Basename(dst)
    requires dst in r && r[dst].File? && IsDir(r, folder) && SoundListing(r[folder].entries)
    requires forall p :: p != dst && p != folder ==> (p in r <==> p in nodes)
    requires forall p :: p in nodes && p != dst && p != folder ==> r[p] == nodes[p]
    ensures WellFormed(r)
  {
    forall p | p in r ensures ':' !in Basename(p) {
      if p != dst && p != folder { assert p in nodes; }
    }
    forall p | p in r && r[p].Dir? ensures SoundListing(r[p].entries) {
      if p != dst && p != folder {
        assert r[p] == nodes[p];
      }
    }
  }

  /** The listing `entries` of the folder `dir` without the names that
      denote the path `p`, order kept (listed names are plain, so `Child`
      is their `ntpath.join`). */
  function Unlisted(dir: string, entries: seq<string>, p: string): (r: seq<string>)
    ensures forall e :: e in r <==> e in entries && Child(dir, e) != p
    ensures Distinct(entries) ==> Distinct(r)
  {
    if entries == [] then []
    else
      var rest := Unlisted(dir, entries[1..], p);
      assert Distinct(entries) ==> entries[0] !in rest by {
        if Distinct(entries) { DistinctTail(entries); }
      }
      (if Child(dir, entries[0]) != p then [entries[0]] else []) + rest
  }

  /** Among plain names, only `name` itself denotes the folder joined with
      `name`. */
  lemma {:induction false} UnlistedPlain(dir: string, entries: seq<string>, name: string)
    requires Plain(name) && forall e :: e in entries ==> Plain(e)
    ensures Unlisted(dir, entries, Child(dir, name)) == Without(entries, name)
  {
    if entries != [] {
      UnlistedPlain(dir, entries[1..], name);
      if Child(dir, entries[0]) == Child(dir, name) {
        ChildInjective(dir, entries[0], name);
      }
    }
  }

  /** `os.remove(os.path.join(folder, name))`: the file the joined path
      denotes goes, wherever it is, and every listing loses the names that
      denoted it. */
  function Remove(nodes: Nodes, folder: string, name: string): (r: Result<Nodes>)
    ensures r.Ok? <==> Join(folder, name) in nodes && nodes[Join(folder, name)].File?
    ensures Join(folder, name) !in nodes ==> r == Err(FileNotFoundError)
    ensures r.Ok? ==> r.value.Keys == nodes.Keys - {Join(folder, name)}
    ensures r.Ok? ==> forall p :: p in r.value && nodes[p].File? ==> r.value[p] == nodes[p]
    ensures r.Ok? ==> forall p :: p in r.value && nodes[p].Dir? ==>
              r.value[p] == Dir(Unlisted(p, nodes[p].entries, Join(folder, name)))
    ensures r.Ok? && WellFormed(nodes) && Plain(name) && IsDir(nodes, folder) ==>
              IsDir(r.value, folder) && r.value[folder].entries == Without(nodes[folder].entries, name)
    ensures r.Ok? && WellFormed(nodes) ==> WellFormed(r.value)
  {
    var p := Join(folder, name);
    if p !in nodes then Err(FileNotFoundError)
    else if nodes[p].Dir? then Err(IsADirectoryError)
    else
      assert WellFormed(nodes) && Plain(name) && IsDir(nodes, folder) ==>
               Unlisted(folder, nodes[folder].entries, p) == Without(nodes[folder].entries, name) by {
        if WellFormed(nodes) && Plain(name) && IsDir(nodes, folder) {
          PlainRelative(name);
          ChildIsJoin(folder, name);
          UnlistedPlain(folder, nodes[folder].entries, name);
        }
      }
      Ok(Erase(nodes, p))
  }

  /** The disk without the file at `p`, and without the names that denoted
      it in every listing. */
  function Erase(nodes: Nodes, p: string): (r: Nodes)
    ensures r.Keys == nodes.Keys - {p}
    ensures forall q :: q in r && nodes[q].File? ==> r[q] == nodes[q]
    ensures forall q :: q in r && nodes[q].Dir? ==> r[q] == Dir(Unlisted(q, nodes[q].entries, p))
    ensures WellFormed(nodes) ==> WellFormed(r)
  {
    map q | q in nodes && q != p :: if nodes[q].Dir? then Dir(Unlisted(q, nodes[q].entries, p)) else nodes[q]
  }

  /** The machine's filesystem, the game-mods link and the two configured
      folders.  `link` is the folder the game-mods junction points at. */
  class FileSystem {
    var nodes: Nodes
    var link: Option<string>
    const gameModsFolder: string
    const tempFolder: string

    constructor (nodes: Nodes, gameModsFolder: string, tempFolder: string)
      ensures this.nodes == nodes && link == None
      ensures this.gameModsFolder == gameModsFolder && this.tempFolder == tempFolder
    {
      this.nodes := nodes;
      this.link := None;
      this.gameModsFolder := gameModsFolder;
      this.tempFolder := tempFolder;
    }

    method CopyInto(src: string, folder: string) returns (r: Outcome)
      modifies this`nodes
      ensures Copy(old(nodes), src, folder).Err? ==> r == Fail(Copy(old(nodes), src, folder).error) && nodes == old(nodes)
      ensures Copy(old(nodes), src, folder).Ok? ==> r == Pass && nodes == Copy(old(nodes), src, folder).value
    {
      var c := Copy(nodes, src, folder);
      if c.Err? {
        return Fail(c.error);
      }
      nodes := c.value;
      r := Pass;
    }

    method RemoveFile(folder: string, name: string) returns (r: Outcome)
      modifies this`nodes
      ensures Remove(old(nodes), folder, name).Err? ==> r == Fail(Remove(old(nodes), folder, name).error) && nodes == old(nodes)
      ensures Remove(old(nodes), folder, name).Ok? ==> r == Pass && nodes == Remove(old(nodes), folder, name).value
    {
      var c := Remove(nodes, folder, name);
      if c.Err? {
        return Fail(c.error);
      }
      nodes := c.value;
      r := Pass;
    }
  }
}
