/** A mod stack (src/modStack.py): a folder of mod archives, the in-memory
    dictionary of the mods loaded from it, its reconciliation with the
    folder's listing, and the game-mods link. */
module ModStacks {
  import opened Wrappers
  import opened Seqs
  import opened Strings
  import opened Paths
  import opened Dicts
  import opened Zip
  import opened Mods
  import opened Disk

  const DuplicateStack: string := "ModStack already exists for this folder"

  /** `Mod(os.path.join(folder, file))` succeeds on the current disk. */
  predicate Loadable(nodes: Nodes, folder: string, file: string) {
    Loads(OpenZip(nodes, Child(folder, file)))
  }

  /** `m` is the Mod that `Mod(os.path.join(folder, file))` builds on the
      disk `nodes`: its path, the icon path in the cache, and the fields
      its descriptor read from the archive's `modDesc.xml`, the titles and
      descriptions as parsed, before any read drops a newline from them. */
  ghost predicate Built(nodes: Nodes, folder: string, tempFolder: string, file: string, m: Mod)
    reads m.desc
  {
    var zip := OpenZip(nodes, Child(folder, file));
    && m.zippath == Child(folder, file)
    && Loads(zip)
    && m.iconPath == IconCachePath(tempFolder, LoadOutcome(zip).value)
    && m.desc.author == zip.value.descriptor.author
    && m.desc.version == zip.value.descriptor.version
    && m.desc.iconFilename == zip.value.descriptor.iconFilename
    && m.desc.multiplayer == zip.value.descriptor.multiplayer
    && m.desc.titles == zip.value.descriptor.title
    && m.desc.descriptions == zip.value.descriptor.description
  }

  /** `__loadMod` puts `file` into the dictionary. */
  predicate Admits(nodes: Nodes, folder: string, file: string) {
    EndsWith(file, ".zip") && Loadable(nodes, folder, file)
  }

  /** The names of `files` that `__loadMod` puts into the dictionary. */
  function Admitted(nodes: Nodes, folder: string, files: seq<string>): set<string> {
    set f | f in files && Admits(nodes, folder, f)
  }

  /** The `.zip` names of `files` whose Mod cannot be built. */
  function Broken(nodes: Nodes, folder: string, files: seq<string>): set<string> {
    set f | f in files && EndsWith(f, ".zip") && !Loadable(nodes, folder, f)
  }

  /** The dictionary's key order after the loading loop has passed over the
      first `n` names of `files`, starting from `keys`, where `ok` holds the
      names that load: a name not yet a key that loads is appended, every
      other name leaves the keys as they are. */
  function LoadKeys(keys: seq<string>, files: seq<string>, ok: set<string>, n: nat): seq<string>
    requires n <= |files|
    decreases n
  {
    if n == 0 then keys
    else
      var before := LoadKeys(keys, files, ok, n - 1);
      if files[n - 1] !in before && files[n - 1] in ok then before + [files[n - 1]] else before
  }

  /** The loop keeps the keys it started from, in front and in order; it
      appends only names of `files` that load, each at most once, and it
      appends every such name that was not a key already. */
  lemma {:induction false} LoadKeysFacts(keys: seq<string>, files: seq<string>, ok: set<string>, n: nat)
    requires n <= |files|
    ensures |keys| <= |LoadKeys(keys, files, ok, n)| && LoadKeys(keys, files, ok, n)[..|keys|] == keys
    ensures forall i :: |keys| <= i < |LoadKeys(keys, files, ok, n)| ==>
              LoadKeys(keys, files, ok, n)[i] in files && LoadKeys(keys, files, ok, n)[i] in ok
    ensures forall j :: 0 <= j < n && files[j] in ok ==> files[j] in LoadKeys(keys, files, ok, n)
    ensures Distinct(keys) ==> Distinct(LoadKeys(keys, files, ok, n))
    decreases n
  {
    if n > 0 {
      LoadKeysFacts(keys, files, ok, n - 1);
      var before := LoadKeys(keys, files, ok, n - 1);
      var f := files[n - 1];
      if f !in before && f in ok {
        assert (before + [f])[..|keys|] == before[..|keys|];
      }
    }
  }

  /** A name that is neither a key nor among the first `n` names of `files`
      is not a key after the loop over them. */
  lemma {:induction false} LoadKeysOnlyFiles(keys: seq<string>, files: seq<string>, ok: set<string>, n: nat, x: string)
    requires n <= |files| && x !in keys
    requires forall j :: 0 <= j < n ==> files[j] != x
    ensures x !in LoadKeys(keys, files, ok, n)
    decreases n
  {
    if n > 0 {
      LoadKeysOnlyFiles(keys, files, ok, n - 1, x);
    }
  }

  /** A key before the loop is still a key after it. */
  lemma {:induction false} LoadKeysKeeps(keys: seq<string>, files: seq<string>, ok: set<string>, n: nat, x: string)
    requires n <= |files| && x in keys
    ensures x in LoadKeys(keys, files, ok, n)
    decreases n
  {
    if n > 0 {
      LoadKeysKeeps(keys, files, ok, n - 1, x);
    }
  }

  /** The `failedMods` list the same loop collects: names of `broken`, not
      yet keys, in listing order. */
  function FailedNames(keys: seq<string>, files: seq<string>, ok: set<string>, broken: set<string>, n: nat): seq<string>
    requires n <= |files|
    decreases n
  {
    if n == 0 then []
    else
      var f := files[n - 1];
      FailedNames(keys, files, ok, broken, n - 1)
        + (if f !in LoadKeys(keys, files, ok, n - 1) && f in broken then [f] else [])
  }

  /** Every reported name is one of the first `n` names and one that fails,
      and none of them becomes a key. */
  lemma {:induction false} FailedNamesFacts(keys: seq<string>, files: seq<string>, ok: set<string>,
                                            broken: set<string>, n: nat)
    requires n <= |files| && ok !! broken
    ensures forall i :: 0 <= i < |FailedNames(keys, files, ok, broken, n)| ==>
              && FailedNames(keys, files, ok, broken, n)[i] in files
              && FailedNames(keys, files, ok, broken, n)[i] in broken
              && FailedNames(keys, files, ok, broken, n)[i] !in LoadKeys(keys, files, ok, n)
    decreases n
  {
    if n > 0 {
      FailedNamesFacts(keys, files, ok, broken, n - 1);
      var prev := FailedNames(keys, files, ok, broken, n - 1);
      var r := FailedNames(keys, files, ok, broken, n);
      var f := files[n - 1];
      var before := LoadKeys(keys, files, ok, n - 1);
      var after := LoadKeys(keys, files, ok, n);
      forall i | 0 <= i < |r| ensures r[i] in files && r[i] in broken && r[i] !in after {
        assert r == prev + (if f !in before && f in broken then [f] else []);
        if i < |prev| {
          assert r[i] == prev[i];
          assert prev[i] in files && prev[i] in broken && prev[i] !in before;
          if f !in before && f in ok {
            assert f !in broken;
            assert after == before + [f];
          }
        } else {
          assert r[i] == f && f in broken && f !in before;
        }
      }
    }
  }

  /** The keys after the loading loop over a listing of `folder`. */
  function Reload(nodes: Nodes, folder: string, keys: seq<string>, listing: seq<string>): seq<string> {
    LoadKeys(keys, listing, Admitted(nodes, folder, listing), |listing|)
  }

  /** The `failedMods` list of the loading loop over a listing of `folder`. */
  function Failures(nodes: Nodes, folder: string, keys: seq<string>, listing: seq<string>): seq<string> {
    FailedNames(keys, listing, Admitted(nodes, folder, listing), Broken(nodes, folder, listing), |listing|)
  }

  /** Loading an empty dictionary from a listing gives, as keys, exactly the
      `.zip` names of the listing whose Mod can be built, each once. */
  lemma LoadedKeysExactly(nodes: Nodes, folder: string, listing: seq<string>)
    ensures Distinct(Reload(nodes, folder, [], listing))
    ensures forall k :: k in Reload(nodes, folder, [], listing) <==> k in listing && Admits(nodes, folder, k)
  {
    var ok := Admitted(nodes, folder, listing);
    LoadKeysFacts([], listing, ok, |listing|);
    var ks := Reload(nodes, folder, [], listing);
    forall k | k in ks ensures k in listing && Admits(nodes, folder, k) {
      var i :| 0 <= i < |ks| && ks[i] == k;
    }
    forall k | k in listing && Admits(nodes, folder, k) ensures k in ks {
      var j :| 0 <= j < |listing| && listing[j] == k;
    }
  }

  /** Position of the first key (in insertion order) that the listing lacks. */
  function FirstMissing(keys: seq<string>, listing: seq<string>): (r: Option<nat>)
    ensures r.Some? ==> r.value < |keys| && keys[r.value] !in listing
    ensures r.Some? ==> forall j :: 0 <= j < r.value ==> keys[j] in listing
    ensures r.None? ==> forall j :: 0 <= j < |keys| ==> keys[j] in listing
  {
    if keys == [] then None
    else if keys[0] !in listing then Some(0)
    else match FirstMissing(keys[1..], listing)
      case None => None
      case Some(i) => Some(i + 1)
  }

  /** What one `__update` does to the dictionary `before`, giving `after`
      and the outcome `r`: a failing `os.listdir` changes nothing; otherwise
      new loadable `.zip` names are appended, and then the deletion loop runs
      over the keys.  Deleting while iterating over `keys()` makes the next
      step of the iteration raise `RuntimeError`, so at most the first stale
      key is deleted, and a deletion always ends in `RuntimeError`.  Mods
      already in the dictionary keep their values (`NewModsBuilt` says what
      the new ones are). */
  ghost predicate Reconciled(nodes: Nodes, folder: string, before: Dict<string, Mod>, after: Dict<string, Mod>, r: Outcome) {
    && after.Valid()
    && (forall k :: k in before.vals && k in after.vals ==> after.vals[k] == before.vals[k])
    && match ListDir(nodes, folder)
       case Err(e) => r == Fail(e) && after == before
       case Ok(listing) =>
         var ks := Reload(nodes, folder, before.keys, listing);
         match FirstMissing(ks, listing)
         case None => r == Pass && after.keys == ks
         case Some(i) => r == Fail(RuntimeError) && after.keys == ks[..i] + ks[i + 1..]
  }

  /** `after` is `before` with the Mod built from the archive `file` put
      under the key `file`. */
  ghost predicate Added(nodes: Nodes, folder: string, tempFolder: string,
                        before: Dict<string, Mod>, after: Dict<string, Mod>, file: string)
    reads if file in after.vals then {after.vals[file].desc} else {}
  {
    file in after.vals && after == before.Put(file, after.vals[file]) && Built(nodes, folder, tempFolder, file, after.vals[file])
  }

  /** Every Mod of `after` that `before` did not hold is the Mod built from
      the folder's archive of that name on the disk `nodes`. */
  ghost predicate NewModsBuilt(nodes: Nodes, folder: string, tempFolder: string,
                               before: Dict<string, Mod>, after: Dict<string, Mod>)
    reads set k | k in after.vals :: after.vals[k].desc
  {
    forall k :: k in after.vals && k !in before.vals ==> Built(nodes, folder, tempFolder, k, after.vals[k])
  }

  /** Putting one built Mod keeps every new Mod built. */
  lemma AddedKeepsBuilt(nodes: Nodes, folder: string, tempFolder: string, base: Dict<string, Mod>,
                        mid: Dict<string, Mod>, after: Dict<string, Mod>, file: string)
    requires NewModsBuilt(nodes, folder, tempFolder, base, mid)
    requires Added(nodes, folder, tempFolder, mid, after, file)
    ensures NewModsBuilt(nodes, folder, tempFolder, base, after)
  {
    forall k | k in after.vals && k !in base.vals ensures Built(nodes, folder, tempFolder, k, after.vals[k]) {
      if k != file {
        assert k in mid.vals && after.vals[k] == mid.vals[k];
      }
    }
  }

  /** The two loops of `__update` together: the first reloads the keys,
      the second drops the first stale key, if any. */
  lemma ReconciledByPasses(nodes: Nodes, folder: string, listing: seq<string>,
                           before: Dict<string, Mod>, mid: Dict<string, Mod>, after: Dict<string, Mod>, r: Outcome)
    requires ListDir(nodes, folder) == Ok(listing)
    requires mid.Valid() && mid.keys == Reload(nodes, folder, before.keys, listing)
    requires forall k :: k in before.vals ==> k in mid.vals && mid.vals[k] == before.vals[k]
    requires FirstMissing(mid.keys, listing).None? ==> r == Pass && after == mid
    requires FirstMissing(mid.keys, listing).Some? ==>
               r == Fail(RuntimeError) && after == mid.Delete(mid.keys[FirstMissing(mid.keys, listing).value])
    ensures Reconciled(nodes, folder, before, after, r)
  {
  }

  /** Deleting keys keeps every new Mod built. */
  lemma DroppedKeepsBuilt(nodes: Nodes, folder: string, tempFolder: string, base: Dict<string, Mod>,
                          mid: Dict<string, Mod>, after: Dict<string, Mod>)
    requires NewModsBuilt(nodes, folder, tempFolder, base, mid)
    requires forall k :: k in after.vals ==> k in mid.vals && after.vals[k] == mid.vals[k]
    ensures NewModsBuilt(nodes, folder, tempFolder, base, after)
  {
  }

  /** Passing the loading loop a second time over the same listing adds
      nothing. */
  lemma {:induction false} LoadKeysNoNew(keys: seq<string>, files: seq<string>, ok: set<string>, n: nat)
    requires n <= |files|
    requires forall j :: 0 <= j < n && files[j] in ok ==> files[j] in keys
    ensures LoadKeys(keys, files, ok, n) == keys
    decreases n
  {
    if n > 0 {
      LoadKeysNoNew(keys, files, ok, n - 1);
    }
  }

  lemma LoadKeysIdempotent(keys: seq<string>, files: seq<string>, ok: set<string>)
    ensures var once := LoadKeys(keys, files, ok, |files|);
            LoadKeys(once, files, ok, |files|) == once
  {
    LoadKeysFacts(keys, files, ok, |files|);
    LoadKeysNoNew(LoadKeys(keys, files, ok, |files|), files, ok, |files|);
  }

  /** With an unchanged disk, a second `__update` after one that passed
      leaves the dictionary exactly as it was and passes too. */
  lemma ReconcileIdempotent(nodes: Nodes, folder: string, before: Dict<string, Mod>, mid: Dict<string, Mod>,
                            after: Dict<string, Mod>, r: Outcome)
    requires Reconciled(nodes, folder, before, mid, Pass)
    requires Reconciled(nodes, folder, mid, after, r)
    ensures after == mid && r == Pass
  {
    var listing := ListDir(nodes, folder).value;
    LoadKeysIdempotent(before.keys, listing, Admitted(nodes, folder, listing));
    assert Reload(nodes, folder, mid.keys, listing) == mid.keys;
    assert after.keys == mid.keys;
    assert after.vals.Keys == mid.vals.Keys;
    assert after.vals == mid.vals;
  }

  /** After an `__update` that passed, every key is in the listing, and every
      `.zip` of the listing whose Mod can be built is a key. */
  lemma PassMeansInSync(nodes: Nodes, folder: string, before: Dict<string, Mod>, after: Dict<string, Mod>)
    requires Reconciled(nodes, folder, before, after, Pass)
    ensures ListDir(nodes, folder).Ok?
    ensures forall k :: k in after.keys ==> k in ListDir(nodes, folder).value
    ensures forall j :: 0 <= j < |ListDir(nodes, folder).value| && Admits(nodes, folder, ListDir(nodes, folder).value[j])
              ==> ListDir(nodes, folder).value[j] in after.vals
  {
    var listing := ListDir(nodes, folder).value;
    LoadKeysFacts(before.keys, listing, Admitted(nodes, folder, listing), |listing|);
  }

  /** A key present before `__update` that the listing still has survives
      it with the same Mod, whichever stale key gets deleted. */
  lemma {:induction false} ListedKeySurvives(nodes: Nodes, folder: string, before: Dict<string, Mod>,
                                              after: Dict<string, Mod>, r: Outcome, k: string)
    requires before.Valid() && k in before.vals
    requires ListDir(nodes, folder).Ok? && k in ListDir(nodes, folder).value
    requires Reconciled(nodes, folder, before, after, r)
    ensures k in after.vals && after.vals[k] == before.vals[k]
  {
    var listing := ListDir(nodes, folder).value;
    var ks := Reload(nodes, folder, before.keys, listing);
    LoadKeysKeeps(before.keys, listing, Admitted(nodes, folder, listing), |listing|, k);
    match FirstMissing(ks, listing)
    case None =>
    case Some(i) =>
      StillIn(ks, i, k);
  }

  /** Dropping position `i` of `s` keeps every other element. */
  lemma StillIn(s: seq<string>, i: nat, x: string)
    requires i < |s| && x in s && s[i] != x
    ensures x in s[..i] + s[i + 1..]
  {
    var p :| 0 <= p < |s| && s[p] == x;
    if p < i {
      assert (s[..i] + s[i + 1..])[p] == x;
    } else {
      assert (s[..i] + s[i + 1..])[p - 1] == x;
    }
  }

  /** Removing the file of a tracked mod makes the following `__update`
      raise `RuntimeError`: its key is stale and deleting it breaks the
      iteration. */
  lemma TrackedRemovalRaises(nodes: Nodes, folder: string, name: string, before: Dict<string, Mod>,
                             after: Dict<string, Mod>, r: Outcome)
    requires before.Valid() && name in before.vals && IsDir(nodes, folder) && WellFormed(nodes)
    requires Plain(name) && Remove(nodes, folder, name).Ok?
    requires Reconciled(Remove(nodes, folder, name).value, folder, before, after, r)
    ensures r == Fail(RuntimeError)
  {
    var n := Remove(nodes, folder, name).value;
    var listing := ListDir(n, folder).value;
    var ks := Reload(n, folder, before.keys, listing);
    LoadKeysKeeps(before.keys, listing, Admitted(n, folder, listing), |listing|, name);
    var p :| 0 <= p < |ks| && ks[p] == name;
    assert name !in listing;
  }

  /** The Python `__instances` class attribute: one stack per folder path. */
  class Instances {
    var stacks: map<string, ModStack>

    constructor ()
      ensures stacks == map[]
    {
      stacks := map[];
    }
  }

  /** The game-mods link after `disable`: removed exactly when the folder
      it points at exists, and otherwise left as it was. */
  function Unlinked(link: Option<string>, nodes: Nodes): (r: Option<string>)
    ensures r.None? <==> link.None? || link.value in nodes
    ensures r.Some? ==> r == link
  {
    if link.Some? && link.value in nodes then None else link
  }

  /** The game-mods link after `enable` of the stack in `folder`: a link
      that `disable` left behind blocks `mklink`. */
  function Linked(link: Option<string>, nodes: Nodes, folder: string, created: bool): (r: Option<string>)
    ensures Unlinked(link, nodes).Some? ==> r == link
    ensures Unlinked(link, nodes).None? ==> r == if created then Some(folder) else None
  {
    if Unlinked(link, nodes).Some? then link else if created then Some(folder) else None
  }

  /** A junction whose folder is gone survives `disable` and every later
      `enable`, whichever stack asks and whether or not `mklink` would
      succeed: the game-mods folder can never be linked again. */
  lemma {:induction false} StaleLinkStays(link: Option<string>, nodes: Nodes, folders: seq<string>, created: seq<bool>)
    requires link.Some? && link.value !in nodes && |folders| == |created|
    ensures Unlinked(link, nodes) == link
    ensures EnableAll(link, nodes, folders, created) == link
  {
    if folders != [] {
      StaleLinkStays(Linked(link, nodes, folders[0], created[0]), nodes, folders[1..], created[1..]);
    }
  }

  /** The link after a series of `enable` calls. */
  function EnableAll(link: Option<string>, nodes: Nodes, folders: seq<string>, created: seq<bool>): Option<string>
    requires |folders| == |created|
    decreases |folders|
  {
    if folders == [] then link
    else EnableAll(Linked(link, nodes, folders[0], created[0]), nodes, folders[1..], created[1..])
  }

  /** A stack made by the manager for the entry `name` of the stack folder
      `root` enters `root` on `enable`, so it raises there only when the
      stack folder itself is gone. */
  lemma EnableEntersRoot(nodes: Nodes, root: string, name: string)
    requires Plain(name) && |Drive(root)| < |root| && !IsSep(root[|root| - 1])
    ensures ChangeDir(nodes, Dirname(Child(root, name))) == ChangeDir(nodes, root)
    ensures IsDir(nodes, root) ==> ChangeDir(nodes, Dirname(Child(root, name))) == Pass
  {
    DirnameOfChild(root, name);
  }

  /** `disable` as evidently intended: `os.path.lexists` (or `islink`)
      finds the junction itself, so it always goes. */
  function UnlinkedFixed(link: Option<string>): (r: Option<string>)
    ensures r.None?
  {
    None
  }

  /** `enable` over the intended `disable`. */
  function LinkedFixed(link: Option<string>, folder: string, created: bool): (r: Option<string>)
  {
    if UnlinkedFixed(link).None? && created then Some(folder) else None
  }

  /** With the intended `disable`, a successful `mklink` always links the
      stack being enabled, whatever link was there before; on a disk where
      the linked folder exists, the two versions agree. */
  lemma FixedEnableLinks(link: Option<string>, nodes: Nodes, folder: string, created: bool)
    ensures LinkedFixed(link, folder, created) == if created then Some(folder) else None
    ensures link.None? || link.value in nodes ==> LinkedFixed(link, folder, created) == Linked(link, nodes, folder, created)
  {
  }

  class ModStack {
    const folder: string
    const name: string
    const fs: FileSystem
    var mods: Dict<string, Mod>

    /** Keys are the `.zip` entry names of the folder, and each Mod was
        built from the archive at `folder` joined with its key. */
    ghost predicate Valid()
      reads this
    {
      && mods.Valid()
      && forall k :: k in mods.vals ==> EndsWith(k, ".zip") && Plain(k) && mods.vals[k].zippath == Child(folder, k)
    }

    /** The stack's name is the base name of its folder. */
    ghost predicate Named()
      reads this
    {
      name == Basename(folder)
    }

    /** As `ModStack(folder)` leaves a stack whose folder could be listed:
        its keys are the names of the listing that load, `failed` the ones
        that fail, and every Mod is built from its archive. */
    ghost predicate Opened(failed: seq<string>)
      reads this, fs, set k | k in mods.vals :: mods.vals[k].desc
    {
      && Valid() && Named()
      && ListDir(fs.nodes, folder).Ok?
      && mods.keys == Reload(fs.nodes, folder, [], ListDir(fs.nodes, folder).value)
      && failed == Failures(fs.nodes, folder, [], ListDir(fs.nodes, folder).value)
      && NewModsBuilt(fs.nodes, folder, fs.tempFolder, Empty(), mods)
    }

    constructor (folder: string, fs: FileSystem)
      ensures Valid() && Named() && this.folder == folder && this.fs == fs && mods == Empty()
    {
      this.folder := folder;
      this.fs := fs;
      this.name := Basename(folder);
      this.mods := Empty();
    }

    /** `ModStack(folder)`: refused for a folder already registered;
        otherwise the folder is loaded and only then registered, so a failing
        `os.listdir` leaves the registry as it was. */
    static method Create(folder: string, fs: FileSystem, reg: Instances) returns (r: Result<ModStack>, failed: seq<string>)
      requires WellFormed(fs.nodes)
      modifies reg
      ensures folder in old(reg.stacks) ==> r == Err(Exception(DuplicateStack)) && reg.stacks == old(reg.stacks)
      ensures folder !in old(reg.stacks) && ListDir(fs.nodes, folder).Err? ==>
                r == Err(ListDir(fs.nodes, folder).error) && reg.stacks == old(reg.stacks)
      ensures folder !in old(reg.stacks) && ListDir(fs.nodes, folder).Ok? ==>
                && r.Ok? && fresh(r.value) && r.value.folder == folder && r.value.fs == fs
                && r.value.Opened(failed)
                && reg.stacks == old(reg.stacks)[folder := r.value]
    {
      failed := [];
      if folder in reg.stacks {
        return Err(Exception(DuplicateStack)), [];
      }
      var s, loaded;
      s, loaded, failed := Open(folder, fs);
      if loaded.Fail? {
        return Err(loaded.error), [];
      }
      reg.stacks := reg.stacks[folder := s];
      r := Ok(s);
    }

    /** The body of `ModStack(folder)` before registration: a new stack on
        `folder`, loaded. */
    static method Open(folder: string, fs: FileSystem) returns (s: ModStack, r: Outcome, failed: seq<string>)
      requires WellFormed(fs.nodes)
      ensures fresh(s) && s.folder == folder && s.fs == fs
      ensures ListDir(fs.nodes, folder).Err? ==> r == Fail(ListDir(fs.nodes, folder).error)
      ensures ListDir(fs.nodes, folder).Ok? ==> r == Pass && s.Opened(failed)
    {
      s := new ModStack(folder, fs);
      r, failed := s.Load();
    }

    /** `__loadMod(file, failedMods)` for an entry of `listing`: a `.zip`
        name whose Mod can be built becomes a key holding that Mod; a `.zip`
        name whose Mod fails is reported; any other name is ignored. */
    method LoadMod(file: string, ghost listing: seq<string>) returns (failed: bool)
      requires Valid() && Plain(file) && file in listing
      modifies this`mods
      ensures Valid()
      ensures failed <==> file in Broken(fs.nodes, folder, listing)
      ensures file !in Admitted(fs.nodes, folder, listing) ==> mods == old(mods)
      ensures file in Admitted(fs.nodes, folder, listing) ==>
                && Added(fs.nodes, folder, fs.tempFolder, old(mods), mods, file)
                && fresh(mods.vals[file]) && fresh(mods.vals[file].desc)
                && mods.vals[file].desc.titles == OpenZip(fs.nodes, Child(folder, file)).value.descriptor.title
                && mods.vals[file].desc.descriptions == OpenZip(fs.nodes, Child(folder, file)).value.descriptor.description
    {
      if !EndsWith(file, ".zip") {
        return false;
      }
      var path := Child(folder, file);
      var m := Mod.Load(path, OpenZip(fs.nodes, path), fs.tempFolder);
      if m.Err? {
        return true;
      }
      mods := mods.Put(file, m.value);
      failed := false;
    }

    /** `__load`: one `__loadMod` per entry of the listing, on an empty
        dictionary. */
    method Load() returns (r: Outcome, failed: seq<string>)
      requires Valid() && WellFormed(fs.nodes) && mods == Empty()
      modifies this`mods
      ensures Valid()
      ensures ListDir(fs.nodes, folder).Err? ==> r == Fail(ListDir(fs.nodes, folder).error) && mods == old(mods)
      ensures ListDir(fs.nodes, folder).Ok? ==>
                && r == Pass
                && mods.keys == Reload(fs.nodes, folder, [], ListDir(fs.nodes, folder).value)
                && failed == Failures(fs.nodes, folder, [], ListDir(fs.nodes, folder).value)
      ensures NewModsBuilt(fs.nodes, folder, fs.tempFolder, old(mods), mods)
    {
      var listed := ListDir(fs.nodes, folder);
      if listed.Err? {
        return Fail(listed.error), [];
      }
      failed := LoadListing(listed.value);
      r := Pass;
    }

    /** The loop of `__load`: `__loadMod` for every name of the listing. */
    method LoadListing(listing: seq<string>) returns (failed: seq<string>)
      requires Valid() && mods == Empty() && SoundListing(listing)
      modifies this`mods
      ensures Valid()
      ensures mods.keys == Reload(fs.nodes, folder, [], listing)
      ensures failed == Failures(fs.nodes, folder, [], listing)
      ensures NewModsBuilt(fs.nodes, folder, fs.tempFolder, old(mods), mods)
    {
      failed := [];
      ghost var ok, broken := Admitted(fs.nodes, folder, listing), Broken(fs.nodes, folder, listing);
      var i := 0;
      while i < |listing|
        invariant 0 <= i <= |listing|
        invariant Valid()
        invariant mods.keys == LoadKeys([], listing, ok, i)
        invariant failed == FailedNames([], listing, ok, broken, i)
        invariant NewModsBuilt(fs.nodes, folder, fs.tempFolder, old(mods), mods)
      {
        var file := listing[i];
        LoadKeysOnlyFiles([], listing, ok, i, file);
        ghost var mid := mods;
        var bad := LoadMod(file, listing);
        assert NewModsBuilt(fs.nodes, folder, fs.tempFolder, old(mods), mid);
        if file in ok {
          AddedKeepsBuilt(fs.nodes, folder, fs.tempFolder, old(mods), mid, mods, file);
        }
        if bad {
          failed := failed + [file];
        }
        i := i + 1;
      }
    }

    /** `__update`: load the listed names that are not keys yet, then walk
        the keys and delete a key the listing lacks, which ends the walk in
        `RuntimeError`. */
    method Update() returns (r: Outcome, failed: seq<string>)
      requires Valid() && WellFormed(fs.nodes)
      modifies this`mods
      ensures Valid()
      ensures Reconciled(fs.nodes, folder, old(mods), mods, r)
      ensures NewModsBuilt(fs.nodes, folder, fs.tempFolder, old(mods), mods)
      ensures ListDir(fs.nodes, folder).Ok? ==>
                failed == Failures(fs.nodes, folder, old(mods.keys), ListDir(fs.nodes, folder).value)
    {
      var listed := ListDir(fs.nodes, folder);
      if listed.Err? {
        return Fail(listed.error), [];
      }
      var listing := listed.value;
      failed := LoadMissing(listing);
      ghost var mid := mods;
      r := DropFirstStale(listing);
      DroppedKeepsBuilt(fs.nodes, folder, fs.tempFolder, old(mods), mid, mods);
      ReconciledByPasses(fs.nodes, folder, listing, old(mods), mid, mods, r);
    }

    /** The first loop of `__update`: `__loadMod` for every listed name that
        is not a key yet; the Mods already loaded stay as they are. */
    method LoadMissing(listing: seq<string>) returns (failed: seq<string>)
      requires Valid() && SoundListing(listing)
      modifies this`mods
      ensures Valid()
      ensures mods.keys == Reload(fs.nodes, folder, old(mods.keys), listing)
      ensures failed == Failures(fs.nodes, folder, old(mods.keys), listing)
      ensures forall k :: k in old(mods.vals) ==> k in mods.vals && mods.vals[k] == old(mods.vals[k])
      ensures NewModsBuilt(fs.nodes, folder, fs.tempFolder, old(mods), mods)
    {
      failed := [];
      ghost var before := mods;
      ghost var ok, broken := Admitted(fs.nodes, folder, listing), Broken(fs.nodes, folder, listing);
      var i := 0;
      while i < |listing|
        invariant 0 <= i <= |listing|
        invariant Valid()
        invariant mods.keys == LoadKeys(before.keys, listing, ok, i)
        invariant failed == FailedNames(before.keys, listing, ok, broken, i)
        invariant forall k :: k in before.vals ==> k in mods.vals && mods.vals[k] == before.vals[k]
        invariant NewModsBuilt(fs.nodes, folder, fs.tempFolder, before, mods)
      {
        failed := LoadStep(listing, i, before, failed);
        i := i + 1;
      }
    }

    /** One turn of the first loop of `__update`, on the `i`-th name. */
    method LoadStep(listing: seq<string>, i: nat, ghost before: Dict<string, Mod>, failed: seq<string>)
      returns (failed': seq<string>)
      requires i < |listing| && Valid() && SoundListing(listing)
      requires mods.keys == LoadKeys(before.keys, listing, Admitted(fs.nodes, folder, listing), i)
      requires failed == FailedNames(before.keys, listing, Admitted(fs.nodes, folder, listing),
                                     Broken(fs.nodes, folder, listing), i)
      requires forall k :: k in before.vals ==> k in mods.vals && mods.vals[k] == before.vals[k]
      requires NewModsBuilt(fs.nodes, folder, fs.tempFolder, before, mods)
      modifies this`mods
      ensures Valid()
      ensures mods.keys == LoadKeys(before.keys, listing, Admitted(fs.nodes, folder, listing), i + 1)
      ensures failed' == FailedNames(before.keys, listing, Admitted(fs.nodes, folder, listing),
                                     Broken(fs.nodes, folder, listing), i + 1)
      ensures forall k :: k in before.vals ==> k in mods.vals && mods.vals[k] == before.vals[k]
      ensures NewModsBuilt(fs.nodes, folder, fs.tempFolder, before, mods)
    {
      var file := listing[i];
      var bad := LoadAbsent(file, listing, before);
      failed' := if bad then failed + [file] else failed;
    }

    /** One step of the first loop of `__update`: `__loadMod` for a name
        that is not a key yet, nothing for one that is. */
    method LoadAbsent(file: string, ghost listing: seq<string>, ghost base: Dict<string, Mod>) returns (failed: bool)
      requires Valid() && Plain(file) && file in listing
      requires NewModsBuilt(fs.nodes, folder, fs.tempFolder, base, mods)
      modifies this`mods
      ensures Valid()
      ensures failed <==> file !in old(mods.keys) && file in Broken(fs.nodes, folder, listing)
      ensures mods.keys == if file !in old(mods.keys) && file in Admitted(fs.nodes, folder, listing)
                           then old(mods.keys) + [file] else old(mods.keys)
      ensures forall k :: k in old(mods.vals) ==> k in mods.vals && mods.vals[k] == old(mods.vals[k])
      ensures NewModsBuilt(fs.nodes, folder, fs.tempFolder, base, mods)
    {
      if file in mods.vals {
        return false;
      }
      ghost var mid := mods;
      failed := LoadMod(file, listing);
      assert NewModsBuilt(fs.nodes, folder, fs.tempFolder, base, mid);
      if file in Admitted(fs.nodes, folder, listing) {
        AddedKeepsBuilt(fs.nodes, folder, fs.tempFolder, base, mid, mods, file);
      }
    }

    /** The second loop of `__update`: walk the keys in insertion order and
        delete the first one the listing lacks; the next step of the walk
        then raises `RuntimeError`, so no later key is looked at. */
    method DropFirstStale(listing: seq<string>) returns (r: Outcome)
      requires Valid()
      modifies this`mods
      ensures Valid()
      ensures forall k :: k in mods.vals ==> k in old(mods.vals) && mods.vals[k] == old(mods.vals[k])
      ensures FirstMissing(old(mods.keys), listing).None? ==> r == Pass && mods == old(mods)
      ensures FirstMissing(old(mods.keys), listing).Some? ==>
                r == Fail(RuntimeError) && mods == old(mods).Delete(old(mods.keys)[FirstMissing(old(mods.keys), listing).value])
    {
      var j := 0;
      while j < |mods.keys|
        invariant 0 <= j <= |mods.keys|
        invariant forall m :: 0 <= m < j ==> mods.keys[m] in listing
      {
        if mods.keys[j] !in listing {
          assert FirstMissing(mods.keys, listing) == Some(j);
          mods := mods.Delete(mods.keys[j]);
          return Fail(RuntimeError);
        }
        j := j + 1;
      }
      r := Pass;
    }

    /** `addMod`: the checks, in order, then the copy and `__update`.  The
        duplicate check compares the whole `archivePath` with the keys,
        which are bare file names. */
    method AddMod(archivePath: string) returns (r: Outcome)
      requires Valid() && WellFormed(fs.nodes)
      modifies this`mods, fs`nodes
      ensures Valid() && WellFormed(fs.nodes)
      ensures Imported(folder, archivePath, old(fs.nodes), fs.nodes, old(mods), mods, r)
      ensures NewModsBuilt(fs.nodes, folder, fs.tempFolder, old(mods), mods)
    {
      r := Import(archivePath);
    }

    /** `updateMod`: the source's guard is the one of `addMod` (it refuses
        an `archivePath` that IS a key), so it behaves exactly like `addMod`. */
    method UpdateMod(archivePath: string) returns (r: Outcome)
      requires Valid() && WellFormed(fs.nodes)
      modifies this`mods, fs`nodes
      ensures Valid() && WellFormed(fs.nodes)
      ensures Imported(folder, archivePath, old(fs.nodes), fs.nodes, old(mods), mods, r)
      ensures NewModsBuilt(fs.nodes, folder, fs.tempFolder, old(mods), mods)
    {
      r := Import(archivePath);
    }

    /** The body `addMod` and `updateMod` share. */
    method Import(archivePath: string) returns (r: Outcome)
      requires Valid() && WellFormed(fs.nodes)
      modifies this`mods, fs`nodes
      ensures Valid() && WellFormed(fs.nodes)
      ensures Imported(folder, archivePath, old(fs.nodes), fs.nodes, old(mods), mods, r)
      ensures NewModsBuilt(fs.nodes, folder, fs.tempFolder, old(mods), mods)
    {
      if !EndsWith(archivePath, ".zip") {
        return Fail(ValueError);
      }
      if archivePath !in fs.nodes {
        return Fail(FileNotFoundError);
      }
      if archivePath in mods.vals {
        return Fail(ValueError);
      }
      r := CopyAndUpdate(archivePath);
    }

    /** The part of `addMod` and `updateMod` after the checks: copy the
        archive into the folder, then `__update`. */
    method CopyAndUpdate(archivePath: string) returns (r: Outcome)
      requires Valid() && WellFormed(fs.nodes)
      requires EndsWith(archivePath, ".zip") && archivePath in fs.nodes && archivePath !in mods.vals
      modifies this`mods, fs`nodes
      ensures Valid() && WellFormed(fs.nodes)
      ensures Imported(folder, archivePath, old(fs.nodes), fs.nodes, old(mods), mods, r)
      ensures NewModsBuilt(fs.nodes, folder, fs.tempFolder, old(mods), mods)
    {
      var copied := fs.CopyInto(archivePath, folder);
      if copied.Fail? {
        return copied;
      }
      ghost var copiedNodes := fs.nodes;
      var failed;
      r, failed := Update();
      ImportedByCopy(folder, archivePath, old(fs.nodes), copiedNodes, old(mods), mods, r);
    }

    /** `removeMod`: delete the file, then `__update`. */
    method RemoveMod(modName: string) returns (r: Outcome)
      requires Valid() && WellFormed(fs.nodes)
      modifies this`mods, fs`nodes
      ensures Valid() && WellFormed(fs.nodes)
      ensures Remove(old(fs.nodes), folder, modName).Err? ==>
                r == Fail(Remove(old(fs.nodes), folder, modName).error) && mods == old(mods) && fs.nodes == old(fs.nodes)
      ensures Remove(old(fs.nodes), folder, modName).Ok? ==>
                fs.nodes == Remove(old(fs.nodes), folder, modName).value && Reconciled(fs.nodes, folder, old(mods), mods, r)
      ensures NewModsBuilt(fs.nodes, folder, fs.tempFolder, old(mods), mods)
      ensures modName in old(mods.vals) && IsDir(old(fs.nodes), folder) && Remove(old(fs.nodes), folder, modName).Ok? ==>
                r == Fail(RuntimeError)
    {
      ghost var before := mods;
      ghost var nodes0 := fs.nodes;
      var removed := fs.RemoveFile(folder, modName);
      if removed.Fail? {
        return removed;
      }
      var failed;
      r, failed := Update();
      if modName in before.vals && IsDir(nodes0, folder) {
        assert Plain(modName);
        TrackedRemovalRaises(nodes0, folder, modName, before, mods, r);
      }
    }

    /** `enable`: `disable` first; then `runCommand` enters the folder
        holding this stack's folder, which raises when that folder is gone,
        and runs `mklink /J` there.  `created` is whether `mklink` would
        succeed on a free path, which the source only logs; a dangling
        junction that `disable` left keeps the path taken, so `mklink`
        fails. */
    method Enable(created: bool) returns (r: Outcome)
      modifies fs`link
      ensures r == ChangeDir(fs.nodes, Dirname(folder))
      ensures r.Pass? ==> fs.link == Linked(old(fs.link), fs.nodes, folder, created)
      ensures r.Fail? ==> fs.link == Unlinked(old(fs.link), fs.nodes)
    {
      Disable(fs);
      r := ChangeDir(fs.nodes, Dirname(folder));
      if r.Fail? {
        return;
      }
      if created && fs.link.None? {
        fs.link := Some(folder);
      }
    }

    /** `disable`: remove the game-mods link if `os.path.exists` finds it;
        that follows the junction, so one whose folder is gone stays. */
    static method Disable(fs: FileSystem)
      modifies fs`link
      ensures fs.link == Unlinked(old(fs.link), fs.nodes)
    {
      if fs.link.Some? && fs.link.value in fs.nodes {
        fs.link := None;
      }
    }

    function GetName(): (r: string)
      reads this
      requires Named()
      ensures r == Basename(folder) && NoSep(r)
    {
      name
    }

    /** `list(self.__mods.values())[index]`, with Python's negative indices. */
    function GetModByIndex(index: int): (r: Result<Mod>)
      reads this
      requires Valid()
      ensures r.Ok? <==> -|mods.keys| <= index < |mods.keys|
      ensures 0 <= index < |mods.keys| ==> r == Ok(mods.vals[mods.keys[index]])
      ensures -|mods.keys| <= index < 0 ==> r == Ok(mods.vals[mods.keys[|mods.keys| + index]])
      ensures r.Err? ==> r.error == IndexError
    {
      var values := mods.Values();
      if 0 <= index < |values| then Ok(values[index])
      else if -|values| <= index < 0 then Ok(values[|values| + index])
      else Err(IndexError)
    }

    /** `len(stack)`: the number of entries of the dictionary. */
    function Len(): (n: nat)
      reads this
      requires Valid()
      ensures n == |mods.vals|
    {
      SizeIsKeyCount(mods);
      |mods.keys|
    }
  }

  /** What `addMod` (and `updateMod`) do: a `ValueError` for a name not
      ending in `.zip`, a `FileNotFoundError` for a path that does not exist,
      a `ValueError` when the path itself is a key, each before anything
      changes; otherwise the copy, and `__update` on the new disk. */
  ghost predicate Imported(folder: string, archivePath: string, nodes0: Nodes, nodes1: Nodes,
                           before: Dict<string, Mod>, after: Dict<string, Mod>, r: Outcome) {
    if !EndsWith(archivePath, ".zip") then r == Fail(ValueError) && nodes1 == nodes0 && after == before
    else if archivePath !in nodes0 then r == Fail(FileNotFoundError) && nodes1 == nodes0 && after == before
    else if archivePath in before.vals then r == Fail(ValueError) && nodes1 == nodes0 && after == before
    else match Copy(nodes0, archivePath, folder)
      case Err(e) => r == Fail(e) && nodes1 == nodes0 && after == before
      case Ok(n) => nodes1 == n && Reconciled(n, folder, before, after, r)
  }

  /** The checks passed and the copy succeeded: `Imported` is the
      `__update` on the new disk. */
  lemma ImportedByCopy(folder: string, archivePath: string, nodes0: Nodes, nodes1: Nodes,
                       before: Dict<string, Mod>, after: Dict<string, Mod>, r: Outcome)
    requires EndsWith(archivePath, ".zip") && archivePath in nodes0 && archivePath !in before.vals
    requires Copy(nodes0, archivePath, folder) == Ok(nodes1)
    requires Reconciled(nodes1, folder, before, after, r)
    ensures Imported(folder, archivePath, nodes0, nodes1, before, after, r)
  {
  }

  /** The duplicate check of `addMod` never fires for a full path: keys are
      bare names without a separator. */
  lemma FullPathNeverTracked(s: ModStack, archivePath: string)
    requires s.Valid() && HasSep(archivePath)
    ensures archivePath !in s.mods.vals
  {
  }

  /** Copying an archive over a tracked one (what `updateMod` is meant for)
      keeps the Mod loaded before: `__update` skips names that are keys. */
  lemma ReplacedArchiveNotReloaded(folder: string, archivePath: string, nodes0: Nodes, nodes1: Nodes,
                                   before: Dict<string, Mod>, after: Dict<string, Mod>, r: Outcome)
    requires before.Valid() && Basename(archivePath) in before.vals
    requires EndsWith(archivePath, ".zip") && archivePath in nodes0 && archivePath !in before.vals
    requires IsDir(nodes0, folder) && Copy(nodes0, archivePath, folder).Ok?
    requires Imported(folder, archivePath, nodes0, nodes1, before, after, r)
    ensures Basename(archivePath) in after.vals
    ensures after.vals[Basename(archivePath)] == before.vals[Basename(archivePath)]
  {
    ListedKeySurvives(nodes1, folder, before, after, r, Basename(archivePath));
  }

  /** Adding the stack's own copy of an archive, by its full path in the
      folder, fails in the copy with `SameFileError` and changes nothing
      (unless that path is itself a key, which the duplicate check refuses
      first). */
  lemma OwnArchiveRaises(folder: string, name: string, nodes0: Nodes, nodes1: Nodes,
                         before: Dict<string, Mod>, after: Dict<string, Mod>, r: Outcome)
    requires Plain(name) && EndsWith(name, ".zip") && IsDir(nodes0, folder)
    requires Join(folder, name) in nodes0 && nodes0[Join(folder, name)].File?
    requires Imported(folder, Join(folder, name), nodes0, nodes1, before, after, r)
    ensures nodes1 == nodes0 && after == before
    ensures r == if Join(folder, name) in before.vals then Fail(ValueError) else Fail(SameFileError)
  {
    var path := Join(folder, name);
    PlainRelative(name);
    EndsWithConcat(JoinPrefix(folder), name, ".zip");
    BasenameOfJoin(folder, name);
    assert CopyTarget(nodes0, path, folder) == path;
  }
}
