/** The mod entity (src/mod.py): icon resolution over the archive's entry
    names, the cached icon path, and all-or-nothing construction. */
module Mods {
  import opened Wrappers
  import opened Strings
  import opened Paths
  import opened ModDescs
  import opened Zip

  /** Index of the first entry equal to `icon` ignoring case (second loop of
      `findRealIcon`). */
  function FirstCaseless(icon: string, names: seq<string>): (r: Option<nat>)
    ensures r.Some? ==> r.value < |names| && Lower(names[r.value]) == Lower(icon)
    ensures r.Some? ==> forall j :: 0 <= j < r.value ==> Lower(names[j]) != Lower(icon)
    ensures r.None? ==> forall j :: 0 <= j < |names| ==> Lower(names[j]) != Lower(icon)
  {
    if names == [] then None
    else if Lower(names[0]) == Lower(icon) then Some(0)
    else match FirstCaseless(icon, names[1..])
      case None => None
      case Some(i) => Some(i + 1)
  }

  /** Index of the first entry whose text before the first dot equals that
      of `icon` (third loop of `findRealIcon`). */
  function FirstSameStem(icon: string, names: seq<string>): (r: Option<nat>)
    ensures r.Some? ==> r.value < |names| && Stem(names[r.value]) == Stem(icon)
    ensures r.Some? ==> forall j :: 0 <= j < r.value ==> Stem(names[j]) != Stem(icon)
    ensures r.None? ==> forall j :: 0 <= j < |names| ==> Stem(names[j]) != Stem(icon)
  {
    if names == [] then None
    else if Stem(names[0]) == Stem(icon) then Some(0)
    else match FirstSameStem(icon, names[1..])
      case None => None
      case Some(i) => Some(i + 1)
  }

  /** `findRealIcon`: the exact name if the archive has it, else the first
      case-insensitive match, else the first entry with the same stem, else
      `FileNotFoundError`. */
  function FindRealIcon(icon: string, names: seq<string>): (r: Result<string>)
    ensures icon in names ==> r == Ok(icon)
    ensures icon !in names && FirstCaseless(icon, names).Some? ==>
              r == Ok(names[FirstCaseless(icon, names).value])
    ensures icon !in names && FirstCaseless(icon, names).None? && FirstSameStem(icon, names).Some? ==>
              r == Ok(names[FirstSameStem(icon, names).value])
    ensures icon !in names && FirstCaseless(icon, names).None? && FirstSameStem(icon, names).None? ==>
              r == Err(FileNotFoundError)
  {
    if icon in names then Ok(icon)
    else match FirstCaseless(icon, names)
      case Some(i) => Ok(names[i])
      case None =>
        match FirstSameStem(icon, names)
        case Some(i) => Ok(names[i])
        case None => Err(FileNotFoundError)
  }

  /** Whatever `findRealIcon` returns is an entry of the archive, and it
      fails only with `FileNotFoundError`. */
  lemma IconIsEntry(icon: string, names: seq<string>)
    ensures FindRealIcon(icon, names).Ok? ==> FindRealIcon(icon, names).value in names
    ensures FindRealIcon(icon, names).Err? ==> FindRealIcon(icon, names).error == FileNotFoundError
  {
  }

  /** An earlier strategy always wins: when some entry matches ignoring
      case, the result matches ignoring case (no stem-only match is taken). */
  lemma StrategyPriority(icon: string, names: seq<string>, k: nat)
    requires k < |names| && Lower(names[k]) == Lower(icon)
    ensures FindRealIcon(icon, names).Ok?
    ensures Lower(FindRealIcon(icon, names).value) == Lower(icon)
  {
    assert FirstCaseless(icon, names).Some?;
  }

  /** Every result matches the icon by at least one of the strategies. */
  lemma ResultMatchesSomeStrategy(icon: string, names: seq<string>)
    requires FindRealIcon(icon, names).Ok?
    ensures var e := FindRealIcon(icon, names).value;
            e == icon || Lower(e) == Lower(icon) || Stem(e) == Stem(icon)
  {
  }

  /** A reference that differs from an entry only in case resolves to that
      entry: `icon.dds` finds `Icon.DDS`. */
  lemma CaselessExample()
    ensures FindRealIcon("icon.dds", ["modDesc.xml", "Icon.DDS"]) == Ok("Icon.DDS")
  {
    assert Lower("icon.dds") == "icon.dds";
    assert Lower("Icon.DDS") == "icon.dds";
    assert FirstCaseless("icon.dds", ["modDesc.xml", "Icon.DDS"]) == Some(1) by {
      assert Lower("modDesc.xml")[0] == 'm';
      assert FirstCaseless("icon.dds", ["Icon.DDS"]) == Some(0);
    }
  }

  /** A reference with another extension resolves by stem: `icon.dds`
      finds `icon.png`. */
  lemma StemExample()
    ensures FindRealIcon("icon.dds", ["icon.png"]) == Ok("icon.png")
  {
    assert Lower("icon.png")[5] == 'p';
    assert Lower("icon.dds")[5] == 'd';
    StemAt("icon.png", 4);
    StemAt("icon.dds", 4);
  }

  /** Where `saveIcon` writes the icon: the temporary folder joined with the
      matched entry name.  A relative entry name lands below the folder; a
      rooted one keeps at most the folder's drive and lands outside it. */
  function IconCachePath(tempFolder: string, entry: string): (p: string)
    ensures Relative(entry) ==> EndsWith(p, entry) && |p| >= |tempFolder| && p[..|tempFolder|] == tempFolder
    ensures Rooted(entry) ==> p == if Drive(entry) != [] then entry else Drive(tempFolder) + entry
  {
    var p := Join(tempFolder, entry);
    assert Relative(entry) ==> EndsWith(p, entry) by {
      if Relative(entry) {
        assert p[|p| - |entry|..] == entry;
      }
    }
    p
  }

  /** How `Mod(zippath)` ends for the archive the zip reader gives: the
      matched icon entry, or the first exception raised on the way (opening
      the zip, opening `modDesc.xml`, reading `iconFilename`, resolving the
      icon). */
  function LoadOutcome(zip: Result<Archive>): (r: Result<string>)
    ensures r.Ok? ==> zip.Ok? && DescriptorEntry in zip.value.names
    ensures r.Ok? ==> zip.value.descriptor.iconFilename.Some?
    ensures r.Ok? ==> r == FindRealIcon(zip.value.descriptor.iconFilename.value, zip.value.names)
    ensures r.Ok? ==> r.value in zip.value.names
    ensures zip.Err? ==> r == Err(zip.error)
  {
    match zip
    case Err(e) => Err(e)
    case Ok(a) =>
      if DescriptorEntry !in a.names then Err(KeyError)
      else match a.descriptor.iconFilename
        case None => Err(AttributeError)
        case Some(icon) => FindRealIcon(icon, a.names)
  }

  predicate Loads(zip: Result<Archive>) {
    LoadOutcome(zip).Ok?
  }

  class Mod {
    const zippath: string
    const desc: ModDesc
    const iconPath: string

    constructor (zippath: string, desc: ModDesc, iconPath: string)
      ensures this.zippath == zippath && this.desc == desc && this.iconPath == iconPath
    {
      this.zippath, this.desc, this.iconPath := zippath, desc, iconPath;
    }

    /** `Mod(zippath)`: either every step succeeds and a Mod with its cached
        icon path exists, or the first failure is reported and no Mod is made. */
    static method Load(zippath: string, zip: Result<Archive>, tempFolder: string) returns (r: Result<Mod>)
      ensures r.Ok? <==> Loads(zip)
      ensures r.Err? ==> r.error == LoadOutcome(zip).error
      ensures r.Ok? ==> fresh(r.value) && fresh(r.value.desc)
      ensures r.Ok? ==> r.value.zippath == zippath
      ensures r.Ok? ==> r.value.iconPath == IconCachePath(tempFolder, LoadOutcome(zip).value)
      ensures r.Ok? ==> r.value.desc.author == zip.value.descriptor.author
      ensures r.Ok? ==> r.value.desc.version == zip.value.descriptor.version
      ensures r.Ok? ==> r.value.desc.iconFilename == zip.value.descriptor.iconFilename
      ensures r.Ok? ==> r.value.desc.multiplayer == zip.value.descriptor.multiplayer
      ensures r.Ok? ==> r.value.desc.titles == zip.value.descriptor.title
      ensures r.Ok? ==> r.value.desc.descriptions == zip.value.descriptor.description
    {
      if zip.Err? {
        return Err(zip.error);
      }
      var archive := zip.value;
      if DescriptorEntry !in archive.names {
        return Err(KeyError);
      }
      var desc := new ModDesc(archive.descriptor);
      var icon := desc.Icon();
      if icon.Err? {
        return Err(icon.error);
      }
      var entry := FindRealIcon(icon.value, archive.names);
      if entry.Err? {
        return Err(entry.error);
      }
      var m := new Mod(zippath, desc, IconCachePath(tempFolder, entry.value));
      r := Ok(m);
    }
  }
}
