/** The top-level manager (src/manager.py): one mod stack per sub-folder of
    the stack folder, keyed by the sub-folder's name. */
module Managers {
  import opened Wrappers
  import opened Seqs
  import opened Paths
  import opened Dicts
  import opened Disk
  import opened ModStacks

  /** The names among the first `n` entries of `listing` that are folders
      inside `root`, in listing order: the stacks `__load` creates. */
  function Dirs(nodes: Nodes, root: string, listing: seq<string>, n: nat): seq<string>
    requires n <= |listing|
    decreases n
  {
    if n == 0 then []
    else Dirs(nodes, root, listing, n - 1) + (if IsDir(nodes, Child(root, listing[n - 1])) then [listing[n - 1]] else [])
  }

  /** Every name `Dirs` keeps is one of the first `n` entries and a folder,
      and every such folder is kept. */
  lemma {:induction false} DirsFacts(nodes: Nodes, root: string, listing: seq<string>, n: nat)
    requires n <= |listing|
    ensures forall i :: 0 <= i < |Dirs(nodes, root, listing, n)| ==>
              Dirs(nodes, root, listing, n)[i] in listing && IsDir(nodes, Child(root, Dirs(nodes, root, listing, n)[i]))
    ensures forall j :: 0 <= j < n && IsDir(nodes, Child(root, listing[j])) ==> listing[j] in Dirs(nodes, root, listing, n)
    decreases n
  {
    if n > 0 {
      DirsFacts(nodes, root, listing, n - 1);
      var prev := Dirs(nodes, root, listing, n - 1);
      var r := Dirs(nodes, root, listing, n);
      forall i | 0 <= i < |r| ensures r[i] in listing && IsDir(nodes, Child(root, r[i])) {
        if i < |prev| {
          assert r[i] == prev[i];
        }
      }
      forall j | 0 <= j < n && IsDir(nodes, Child(root, listing[j])) ensures listing[j] in r {
        if j < n - 1 {
          assert listing[j] in prev;
        }
      }
    }
  }

  /** A name not among the first `n` entries is not kept. */
  lemma {:induction false} DirsOnlyListed(nodes: Nodes, root: string, listing: seq<string>, n: nat, x: string)
    requires n <= |listing|
    requires forall j :: 0 <= j < n ==> listing[j] != x
    ensures x !in Dirs(nodes, root, listing, n)
    decreases n
  {
    if n > 0 {
      DirsOnlyListed(nodes, root, listing, n - 1, x);
    }
  }

  /** The entry `f` of `root` is a folder that already has a stack. */
  predicate Clashes(nodes: Nodes, root: string, taken: set<string>, f: string) {
    IsDir(nodes, Child(root, f)) && Child(root, f) in taken
  }

  /** Position of the first entry whose `ModStack(...)` raises because a
      stack already exists for that folder. */
  function FirstClash(nodes: Nodes, root: string, taken: set<string>, listing: seq<string>): (r: Option<nat>)
    ensures r.Some? ==> r.value < |listing| && Clashes(nodes, root, taken, listing[r.value])
    ensures r.Some? ==> forall j :: 0 <= j < r.value ==> !Clashes(nodes, root, taken, listing[j])
    ensures r.None? ==> forall j :: 0 <= j < |listing| ==> !Clashes(nodes, root, taken, listing[j])
  {
    if listing == [] then None
    else if Clashes(nodes, root, taken, listing[0]) then Some(0)
    else match FirstClash(nodes, root, taken, listing[1..])
      case None => None
      case Some(i) => Some(i + 1)
  }

  /** The stack `s` of the sub-folder `k`: it lives in the folder `root`
      joined with `k`, is registered under that folder, is named `k`, and
      holds the mods loaded from that folder. */
  ghost predicate Serves(nodes: Nodes, root: string, fs: FileSystem, reg: map<string, ModStack>, k: string, s: ModStack)
    reads s
  {
    && s.folder == Child(root, k) && s.fs == fs && s.Valid() && s.Named()
    && Child(root, k) in reg && reg[Child(root, k)] == s
    && ListDir(nodes, s.folder).Ok?
    && s.mods.keys == Reload(nodes, s.folder, [], ListDir(nodes, s.folder).value)
  }

  /** The first clash is at `i` when `i` clashes and no entry before it
      does; there is none when no entry clashes. */
  lemma {:induction false} FirstClashAt(nodes: Nodes, root: string, taken: set<string>, listing: seq<string>, i: nat)
    requires i <= |listing|
    requires forall j :: 0 <= j < i ==> !Clashes(nodes, root, taken, listing[j])
    requires i < |listing| ==> Clashes(nodes, root, taken, listing[i])
    ensures FirstClash(nodes, root, taken, listing) == if i < |listing| then Some(i) else None
    decreases i
  {
    if i > 0 {
      var rest := listing[1..];
      assert forall j :: 0 <= j < i - 1 ==> rest[j] == listing[j + 1];
      FirstClashAt(nodes, root, taken, rest, i - 1);
    }
  }

  /** What the manager holds for the stacks of `names`, in that order. */
  ghost predicate Holds(nodes: Nodes, root: string, fs: FileSystem, reg: map<string, ModStack>,
                        stacks: Dict<string, ModStack>, names: seq<string>)
    reads stacks.vals.Values
  {
    && stacks.Valid()
    && stacks.keys == names
    && forall k :: k in stacks.vals ==> Serves(nodes, root, fs, reg, k, stacks.vals[k])
  }

  /** Registering one more folder leaves the stacks of the other folders
      serving. */
  lemma ServesElsewhere(nodes: Nodes, root: string, fs: FileSystem, reg: map<string, ModStack>, k: string, s: ModStack,
                        p: string, t: ModStack)
    requires Serves(nodes, root, fs, reg, k, s) && p != Child(root, k)
    ensures Serves(nodes, root, fs, reg[p := t], k, s)
  {
  }

  /** Adding the stack of one more entry, registered under its folder, keeps
      `Holds`. */
  lemma HoldsExtend(nodes: Nodes, root: string, fs: FileSystem, reg: map<string, ModStack>,
                    stacks: Dict<string, ModStack>, names: seq<string>, entry: string, s: ModStack)
    requires Holds(nodes, root, fs, reg, stacks, names)
    requires Plain(entry) && entry !in stacks.vals
    requires forall k :: k in stacks.vals ==> Plain(k)
    requires Serves(nodes, root, fs, reg[Child(root, entry) := s], entry, s)
    ensures Holds(nodes, root, fs, reg[Child(root, entry) := s], stacks.Put(entry, s), names + [entry])
  {
    var reg' := reg[Child(root, entry) := s];
    var stacks' := stacks.Put(entry, s);
    forall k | k in stacks'.vals ensures Serves(nodes, root, fs, reg', k, stacks'.vals[k]) {
      if k != entry {
        if Child(root, k) == Child(root, entry) {
          ChildInjective(root, k, entry);
        }
        ServesElsewhere(nodes, root, fs, reg, k, stacks.vals[k], Child(root, entry), s);
      }
    }
  }

  /** `ModStack(os.path.join(root, entry))` for a sub-folder of `root`,
      kept under `entry`: it raises exactly when a stack is already
      registered for that folder, and otherwise the new stack joins the
      manager's stacks and is its folder's only new registration. */
  method AddStack(root: string, entry: string, fs: FileSystem, reg: Instances,
                  stacks: Dict<string, ModStack>, ghost names: seq<string>) returns (r: Result<ModStack>)
    requires WellFormed(fs.nodes) && Plain(entry) && IsDir(fs.nodes, Child(root, entry))
    requires Holds(fs.nodes, root, fs, reg.stacks, stacks, names) && entry !in stacks.vals
    requires forall k :: k in stacks.vals ==> Plain(k)
    modifies reg
    ensures r.Err? <==> Child(root, entry) in old(reg.stacks)
    ensures r.Err? ==> r.error == Exception(DuplicateStack) && reg.stacks == old(reg.stacks)
    ensures r.Err? ==> Holds(fs.nodes, root, fs, reg.stacks, stacks, names)
    ensures r.Ok? ==> reg.stacks == old(reg.stacks)[Child(root, entry) := r.value]
    ensures r.Ok? ==> Holds(fs.nodes, root, fs, reg.stacks, stacks.Put(entry, r.value), names + [entry])
  {
    ghost var reg0 := reg.stacks;
    var path := Child(root, entry);
    var failed;
    r, failed := ModStack.Create(path, fs, reg);
    assert Holds(fs.nodes, root, fs, reg0, stacks, names);
    if r.Ok? {
      BasenameOfChild(root, entry);
      HoldsExtend(fs.nodes, root, fs, reg0, stacks, names, entry, r.value);
    }
  }

  /** After `__load` has handled the first `i` entries of the listing
      without a clash: no entry so far clashed, the folders of the entries
      still to come are registered only if they were before, and the stacks
      are kept under plain names. */
  predicate Scanned(nodes: Nodes, root: string, reg: map<string, ModStack>, taken: set<string>,
                    listing: seq<string>, stacks: Dict<string, ModStack>, i: nat)
  {
    && i <= |listing|
    && (forall j :: 0 <= j < i ==> !Clashes(nodes, root, taken, listing[j]))
    && (forall j :: i <= j < |listing| ==> (Child(root, listing[j]) in reg <==> Child(root, listing[j]) in taken))
    && (forall k :: k in stacks.vals ==> Plain(k))
  }

  /** `Scanned`, and the stacks made so far are those of the sub-folders
      among the first `i` entries. */
  ghost predicate Progress(nodes: Nodes, root: string, fs: FileSystem, reg: map<string, ModStack>, taken: set<string>,
                           listing: seq<string>, stacks: Dict<string, ModStack>, i: nat)
    reads stacks.vals.Values
  {
    && Scanned(nodes, root, reg, taken, listing, stacks, i)
    && Holds(nodes, root, fs, reg, stacks, Dirs(nodes, root, listing, i))
  }

  /** An entry that is not a sub-folder changes nothing. */
  lemma ScannedSkip(nodes: Nodes, root: string, reg: map<string, ModStack>, taken: set<string>,
                    listing: seq<string>, stacks: Dict<string, ModStack>, i: nat)
    requires Scanned(nodes, root, reg, taken, listing, stacks, i) && i < |listing|
    requires !IsDir(nodes, Child(root, listing[i]))
    ensures Scanned(nodes, root, reg, taken, listing, stacks, i + 1)
    ensures Dirs(nodes, root, listing, i + 1) == Dirs(nodes, root, listing, i)
  {
    assert Dirs(nodes, root, listing, i + 1) == Dirs(nodes, root, listing, i) + [];
  }

  /** A sub-folder now registered for the first time extends the scan. */
  lemma ScannedAdd(nodes: Nodes, root: string, reg: map<string, ModStack>, taken: set<string>,
                   listing: seq<string>, stacks: Dict<string, ModStack>, i: nat, s: ModStack)
    requires Scanned(nodes, root, reg, taken, listing, stacks, i) && i < |listing|
    requires SoundListing(listing)
    requires IsDir(nodes, Child(root, listing[i])) && Child(root, listing[i]) !in reg
    ensures Scanned(nodes, root, reg[Child(root, listing[i]) := s], taken, listing, stacks.Put(listing[i], s), i + 1)
    ensures Dirs(nodes, root, listing, i + 1) == Dirs(nodes, root, listing, i) + [listing[i]]
  {
    var path := Child(root, listing[i]);
    forall j | i < j < |listing| ensures Child(root, listing[j]) != path {
      if Child(root, listing[j]) == path {
        ChildInjective(root, listing[j], listing[i]);
      }
    }
  }

  /** The registry `reg` is `reg0` plus the registrations of the stacks
      held in `stacks`: every earlier registration is kept as it was, and
      every new one is the folder of a held stack, registered to that stack. */
  ghost predicate Extends(root: string, reg0: map<string, ModStack>, reg: map<string, ModStack>,
                          stacks: Dict<string, ModStack>)
  {
    Kept(reg0, reg) && Gained(root, reg0, reg, stacks)
  }

  /** Every registration of `reg0` is in `reg`, to the same stack. */
  ghost predicate Kept(reg0: map<string, ModStack>, reg: map<string, ModStack>) {
    forall p :: p in reg0 ==> p in reg && reg[p] == reg0[p]
  }

  /** Every registration of `reg` that `reg0` lacks is the folder of the
      stack kept under that folder's name. */
  ghost predicate Gained(root: string, reg0: map<string, ModStack>, reg: map<string, ModStack>,
                         stacks: Dict<string, ModStack>)
  {
    forall p :: p in reg && p !in reg0 ==>
      Basename(p) in stacks.vals && p == Child(root, Basename(p)) && reg[p] == stacks.vals[Basename(p)]
  }

  /** Registering the folder of one more plain entry, kept under that entry,
      extends the registry by that one stack. */
  lemma ExtendsAdd(root: string, reg0: map<string, ModStack>, reg: map<string, ModStack>,
                   stacks: Dict<string, ModStack>, entry: string, s: ModStack)
    requires Extends(root, reg0, reg, stacks) && Plain(entry) && Child(root, entry) !in reg
    ensures Extends(root, reg0, reg[Child(root, entry) := s], stacks.Put(entry, s))
  {
    KeptAfterAdd(root, reg0, reg, stacks, entry, s);
    NewAfterAdd(root, reg0, reg, stacks, entry, s);
  }

  /** The first half of `ExtendsAdd`: earlier registrations stay. */
  lemma KeptAfterAdd(root: string, reg0: map<string, ModStack>, reg: map<string, ModStack>,
                     stacks: Dict<string, ModStack>, entry: string, s: ModStack)
    requires Kept(reg0, reg) && Child(root, entry) !in reg
    ensures Kept(reg0, reg[Child(root, entry) := s])
  {
    var path := Child(root, entry);
    forall p | p in reg0 ensures p in reg[path := s] && reg[path := s][p] == reg0[p] {
      assert p in reg && p != path;
    }
  }

  /** The second half of `ExtendsAdd`: every new registration is the folder
      of a held stack. */
  lemma NewAfterAdd(root: string, reg0: map<string, ModStack>, reg: map<string, ModStack>,
                    stacks: Dict<string, ModStack>, entry: string, s: ModStack)
    requires Gained(root, reg0, reg, stacks) && Plain(entry) && Child(root, entry) !in reg
    ensures Gained(root, reg0, reg[Child(root, entry) := s], stacks.Put(entry, s))
  {
    var path := Child(root, entry);
    var reg' := reg[path := s];
    var stacks' := stacks.Put(entry, s);
    BasenameOfChild(root, entry);
    forall p | p in reg' && p !in reg0
      ensures Basename(p) in stacks'.vals && p == Child(root, Basename(p)) && reg'[p] == stacks'.vals[Basename(p)]
    {
      if p != path {
        var b := Basename(p);
        assert p in reg && b in stacks.vals && p == Child(root, b) && reg[p] == stacks.vals[b];
        assert b != entry;
      }
    }
  }

  /** One turn of the loop of `__load`: the entry at `i` gets a stack when
      it is a sub-folder; a clash ends the loop with the registry as it
      was. */
  method LoadEntry(root: string, listing: seq<string>, i: nat, fs: FileSystem, reg: Instances,
                   stacks: Dict<string, ModStack>, ghost taken: set<string>, ghost reg0: map<string, ModStack>)
    returns (r: Outcome, after: Dict<string, ModStack>)
    requires WellFormed(fs.nodes) && ListDir(fs.nodes, root) == Ok(listing) && i < |listing|
    requires Progress(fs.nodes, root, fs, reg.stacks, taken, listing, stacks, i)
    requires Extends(root, reg0, reg.stacks, stacks)
    modifies reg
    ensures r.Pass? ==> Progress(fs.nodes, root, fs, reg.stacks, taken, listing, after, i + 1)
    ensures r.Pass? ==> Extends(root, reg0, reg.stacks, after)
    ensures r.Fail? ==> r == Fail(Exception(DuplicateStack)) && reg.stacks == old(reg.stacks) && after == stacks
    ensures r.Fail? ==> FirstClash(fs.nodes, root, taken, listing) == Some(i)
    ensures r.Fail? ==> Loaded(fs.nodes, root, fs, reg.stacks, taken, listing, after, r)
  {
    if !IsDir(fs.nodes, Child(root, listing[i])) {
      ScannedSkip(fs.nodes, root, reg.stacks, taken, listing, stacks, i);
      return Pass, stacks;
    }
    r, after := LoadSubFolder(root, listing, i, fs, reg, stacks, taken, reg0);
  }

  /** The entry at `i` names a sub-folder: make its stack, or meet the
      clash. */
  method LoadSubFolder(root: string, listing: seq<string>, i: nat, fs: FileSystem, reg: Instances,
                       stacks: Dict<string, ModStack>, ghost taken: set<string>, ghost reg0: map<string, ModStack>)
    returns (r: Outcome, after: Dict<string, ModStack>)
    requires WellFormed(fs.nodes) && ListDir(fs.nodes, root) == Ok(listing) && i < |listing|
    requires IsDir(fs.nodes, Child(root, listing[i]))
    requires Progress(fs.nodes, root, fs, reg.stacks, taken, listing, stacks, i)
    requires Extends(root, reg0, reg.stacks, stacks)
    modifies reg
    ensures r.Pass? ==> Progress(fs.nodes, root, fs, reg.stacks, taken, listing, after, i + 1)
    ensures r.Pass? ==> Extends(root, reg0, reg.stacks, after)
    ensures r.Fail? ==> r == Fail(Exception(DuplicateStack)) && reg.stacks == old(reg.stacks) && after == stacks
    ensures r.Fail? ==> FirstClash(fs.nodes, root, taken, listing) == Some(i)
    ensures r.Fail? ==> Loaded(fs.nodes, root, fs, reg.stacks, taken, listing, after, r)
  {
    after := stacks;
    var entry := listing[i];
    assert SoundListing(listing);
    SubFolderNew(fs.nodes, root, fs, reg.stacks, taken, listing, stacks, i);
    ghost var regBefore := reg.stacks;
    var added := AddStack(root, entry, fs, reg, stacks, Dirs(fs.nodes, root, listing, i));
    if added.Err? {
      SubFolderClash(fs.nodes, root, fs, reg.stacks, taken, listing, stacks, i);
      return Fail(added.error), after;
    }
    SubFolderAdded(fs.nodes, root, fs, reg0, regBefore, reg.stacks, taken, listing, stacks, i, added.value);
    after := stacks.Put(entry, added.value);
    r := Pass;
  }

  /** A listed sub-folder not handled yet: its plain name is not held yet. */
  lemma SubFolderNew(nodes: Nodes, root: string, fs: FileSystem, reg: map<string, ModStack>, taken: set<string>,
                     listing: seq<string>, stacks: Dict<string, ModStack>, i: nat)
    requires SoundListing(listing) && i < |listing|
    requires Progress(nodes, root, fs, reg, taken, listing, stacks, i)
    ensures Plain(listing[i]) && listing[i] !in stacks.vals
    ensures forall k :: k in stacks.vals ==> Plain(k)
    ensures Holds(nodes, root, fs, reg, stacks, Dirs(nodes, root, listing, i))
  {
    DirsOnlyListed(nodes, root, listing, i, listing[i]);
  }

  /** A listed sub-folder already registered is the first clash. */
  lemma SubFolderClash(nodes: Nodes, root: string, fs: FileSystem, reg: map<string, ModStack>, taken: set<string>,
                       listing: seq<string>, stacks: Dict<string, ModStack>, i: nat)
    requires Scanned(nodes, root, reg, taken, listing, stacks, i) && i < |listing|
    requires Holds(nodes, root, fs, reg, stacks, Dirs(nodes, root, listing, i))
    requires IsDir(nodes, Child(root, listing[i])) && Child(root, listing[i]) in reg
    ensures FirstClash(nodes, root, taken, listing) == Some(i)
    ensures Loaded(nodes, root, fs, reg, taken, listing, stacks, Fail(Exception(DuplicateStack)))
  {
    FirstClashAt(nodes, root, taken, listing, i);
    LoadedAtClash(nodes, root, fs, reg, taken, listing, stacks, i);
  }

  /** The stack of a listed sub-folder, newly held and registered, extends
      both `Progress` and `Extends` by one entry. */
  lemma SubFolderAdded(nodes: Nodes, root: string, fs: FileSystem, reg0: map<string, ModStack>,
                       regBefore: map<string, ModStack>, reg: map<string, ModStack>, taken: set<string>,
                       listing: seq<string>, stacks: Dict<string, ModStack>, i: nat, s: ModStack)
    requires SoundListing(listing) && i < |listing|
    requires Scanned(nodes, root, regBefore, taken, listing, stacks, i)
    requires Extends(root, reg0, regBefore, stacks)
    requires IsDir(nodes, Child(root, listing[i])) && Child(root, listing[i]) !in regBefore
    requires reg == regBefore[Child(root, listing[i]) := s]
    requires Holds(nodes, root, fs, reg, stacks.Put(listing[i], s), Dirs(nodes, root, listing, i) + [listing[i]])
    ensures Progress(nodes, root, fs, reg, taken, listing, stacks.Put(listing[i], s), i + 1)
    ensures Extends(root, reg0, reg, stacks.Put(listing[i], s))
  {
    ScannedAdd(nodes, root, regBefore, taken, listing, stacks, i, s);
    ExtendsAdd(root, reg0, regBefore, stacks, listing[i], s);
  }

  /** Before the first entry nothing is scanned and no stack is held. */
  lemma ProgressStart(nodes: Nodes, root: string, fs: FileSystem, reg: map<string, ModStack>, listing: seq<string>)
    ensures Progress(nodes, root, fs, reg, reg.Keys, listing, Empty(), 0)
  {
    assert Dirs(nodes, root, listing, 0) == [];
  }

  /** How `__load` ends for the listing: with no clash, a stack for every
      sub-folder in listing order; with one, the duplicate-stack exception
      and the stacks of the sub-folders before the clash. */
  ghost predicate Loaded(nodes: Nodes, root: string, fs: FileSystem, reg: map<string, ModStack>, taken: set<string>,
                         listing: seq<string>, stacks: Dict<string, ModStack>, r: Outcome)
    reads stacks.vals.Values
  {
    match FirstClash(nodes, root, taken, listing)
    case None => r == Pass && Holds(nodes, root, fs, reg, stacks, Dirs(nodes, root, listing, |listing|))
    case Some(c) => r == Fail(Exception(DuplicateStack)) && Holds(nodes, root, fs, reg, stacks, Dirs(nodes, root, listing, c))
  }

  /** A clash at `i`, after the stacks of the entries before it. */
  lemma LoadedAtClash(nodes: Nodes, root: string, fs: FileSystem, reg: map<string, ModStack>, taken: set<string>,
                      listing: seq<string>, stacks: Dict<string, ModStack>, i: nat)
    requires FirstClash(nodes, root, taken, listing) == Some(i)
    requires Holds(nodes, root, fs, reg, stacks, Dirs(nodes, root, listing, i))
    ensures Loaded(nodes, root, fs, reg, taken, listing, stacks, Fail(Exception(DuplicateStack)))
  {
  }

  /** Every entry handled without a clash. */
  lemma LoadedAtEnd(nodes: Nodes, root: string, fs: FileSystem, reg: map<string, ModStack>, taken: set<string>,
                    listing: seq<string>, stacks: Dict<string, ModStack>)
    requires Progress(nodes, root, fs, reg, taken, listing, stacks, |listing|)
    ensures Loaded(nodes, root, fs, reg, taken, listing, stacks, Pass)
  {
    FirstClashAt(nodes, root, taken, listing, |listing|);
  }

  /** The loop of `__load` over the listing of the stack folder: a stack
      per sub-folder, in listing order, until one raises. */
  method LoadAll(root: string, listing: seq<string>, fs: FileSystem, reg: Instances)
    returns (r: Outcome, stacks: Dict<string, ModStack>)
    requires WellFormed(fs.nodes) && ListDir(fs.nodes, root) == Ok(listing)
    modifies reg
    ensures Loaded(fs.nodes, root, fs, reg.stacks, old(reg.stacks).Keys, listing, stacks, r)
    ensures Extends(root, old(reg.stacks), reg.stacks, stacks)
  {
    stacks := Empty();
    ghost var taken := reg.stacks.Keys;
    ghost var reg0 := reg.stacks;
    ProgressStart(fs.nodes, root, fs, reg.stacks, listing);
    var i := 0;
    while i < |listing|
      invariant Progress(fs.nodes, root, fs, reg.stacks, taken, listing, stacks, i)
      invariant Extends(root, reg0, reg.stacks, stacks)
    {
      r, stacks := LoadEntry(root, listing, i, fs, reg, stacks, taken, reg0);
      if r.Fail? {
        return;
      }
      i := i + 1;
    }
    LoadedAtEnd(fs.nodes, root, fs, reg.stacks, taken, listing, stacks);
    r := Pass;
  }

  class Manager {
    var initialized: bool
    var stackFolder: string
    var stacks: Dict<string, ModStack>

    /** `Manager.__new__` on first use: an instance not yet initialized. */
    constructor ()
      ensures !initialized && stacks == Empty()
    {
      initialized := false;
      stackFolder := "";
      stacks := Empty();
    }

    /** `Manager()`: the first call records the configured stack folder and
        runs `__load`; later calls leave everything as it is.  A sub-folder
        that already has a stack makes `ModStack(...)` raise; the stacks
        created before it are kept. */
    method Init(root: string, fs: FileSystem, reg: Instances) returns (r: Outcome)
      requires WellFormed(fs.nodes)
      modifies this, reg
      ensures old(initialized) ==>
                r == Pass && initialized && stackFolder == old(stackFolder) && stacks == old(stacks)
                && reg.stacks == old(reg.stacks)
      ensures !old(initialized) ==> initialized && stackFolder == root
      ensures !old(initialized) ==> Extends(root, old(reg.stacks), reg.stacks, stacks)
      ensures !old(initialized) && ListDir(fs.nodes, root).Err? ==>
                r == Fail(ListDir(fs.nodes, root).error) && stacks == Empty() && reg.stacks == old(reg.stacks)
      ensures !old(initialized) && ListDir(fs.nodes, root).Ok? ==>
                Loaded(fs.nodes, root, fs, reg.stacks, old(reg.stacks).Keys, ListDir(fs.nodes, root).value, stacks, r)
    {
      if initialized {
        return Pass;
      }
      initialized := true;
      stackFolder := root;
      r := LoadStacks(root, fs, reg);
    }

    /** `__load`: one stack per sub-folder of the stack folder, kept under
        its name; a listing error is returned as it is. */
    method LoadStacks(root: string, fs: FileSystem, reg: Instances) returns (r: Outcome)
      requires WellFormed(fs.nodes)
      modifies this`stacks, reg
      ensures Extends(root, old(reg.stacks), reg.stacks, stacks)
      ensures ListDir(fs.nodes, root).Err? ==>
                r == Fail(ListDir(fs.nodes, root).error) && stacks == Empty() && reg.stacks == old(reg.stacks)
      ensures ListDir(fs.nodes, root).Ok? ==>
                Loaded(fs.nodes, root, fs, reg.stacks, old(reg.stacks).Keys, ListDir(fs.nodes, root).value, stacks, r)
    {
      stacks := Empty();
      var listed := ListDir(fs.nodes, root);
      if listed.Err? {
        return Fail(listed.error);
      }
      r, stacks := LoadAll(root, listed.value, fs, reg);
    }

    /** `getStack(name)`: the stack of that name, or `KeyError`. */
    function GetStack(name: string): (r: Result<ModStack>)
      reads this
      ensures r.Ok? <==> name in stacks.vals
      ensures r.Ok? ==> r.value == stacks.vals[name]
      ensures r.Err? ==> r.error == KeyError
    {
      if name in stacks.vals then Ok(stacks.vals[name]) else Err(KeyError)
    }

    /** `getStacksNames()`: every stack name once, in the order the stacks
        were loaded. */
    function GetStacksNames(): (r: seq<string>)
      reads this
      requires stacks.Valid()
      ensures r == stacks.keys
      ensures Distinct(r) && |r| == |stacks.vals|
      ensures forall k :: k in r <==> k in stacks.vals
    {
      SizeIsKeyCount(stacks);
      stacks.keys
    }
  }
}
