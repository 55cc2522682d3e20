/** The metadata parser (src/moddesc.py).  The XML parse itself is outside
    the model: a descriptor is given as the already parsed `Tree`, holding the
    elements and attributes the accessors look up. */
module ModDescs {
  import opened Wrappers
  import opened Seqs
  import opened Strings

  /** A child of a `<title>` or `<description>` element: either a text node
      (which has no tag name) or a language element with its text. */
  datatype Node = Text(s: string) | Elem(name: string, text: string)

  /** The parsed `modDesc.xml`.  `None` stands for an element (or the
      `multiplayer` attribute table) that the document lacks. */
  datatype Tree = Tree(
    author: Option<string>,
    version: Option<string>,
    iconFilename: Option<string>,
    multiplayer: Option<map<string, string>>,
    title: Option<seq<Node>>,
    description: Option<seq<Node>>)

  /** `node.text`: a text node is its own text. */
  function NodeText(n: Node): string {
    match n
    case Text(s) => s
    case Elem(_, t) => t
  }

  /** The text-node child the accessors drop before choosing. */
  const Newline: Node := Text("\n")

  /** Index of the first element child whose tag name is `name`; text nodes
      have no name and never match. */
  function FirstNamed(contents: seq<Node>, name: string): (r: Option<nat>)
    ensures r.Some? ==> r.value < |contents| && contents[r.value].Elem? && contents[r.value].name == name
    ensures r.Some? ==> forall j :: 0 <= j < r.value ==> !(contents[j].Elem? && contents[j].name == name)
    ensures r.None? ==> forall j :: 0 <= j < |contents| ==> !(contents[j].Elem? && contents[j].name == name)
  {
    if contents == [] then None
    else if contents[0].Elem? && contents[0].name == name then Some(0)
    else match FirstNamed(contents[1..], name)
      case None => None
      case Some(i) => Some(i + 1)
  }

  /** The child chosen by the three `for` loops: the first element in the
      preferred language, else the first `en` element, else `contents[0]`,
      and an `IndexError` when there is no child at all. */
  function Select(contents: seq<Node>, lang: string): (r: Result<Node>)
    ensures FirstNamed(contents, lang).Some? ==> r == Ok(contents[FirstNamed(contents, lang).value])
    ensures FirstNamed(contents, lang).None? && FirstNamed(contents, "en").Some? ==>
              r == Ok(contents[FirstNamed(contents, "en").value])
    ensures FirstNamed(contents, lang).None? && FirstNamed(contents, "en").None? ==>
              r == if contents == [] then Err(IndexError) else Ok(contents[0])
  {
    match FirstNamed(contents, lang)
    case Some(i) => Ok(contents[i])
    case None =>
      match FirstNamed(contents, "en")
      case Some(i) => Ok(contents[i])
      case None => if contents == [] then Err(IndexError) else Ok(contents[0])
  }

  /** Whenever the selection succeeds it picks a child of the list. */
  lemma SelectPicksChild(contents: seq<Node>, lang: string)
    ensures Select(contents, lang).Ok? <==> contents != []
    ensures Select(contents, lang).Ok? ==> Select(contents, lang).value in contents
  {
  }

  /** A preferred-language element wins over every `en` element, wherever
      the two stand in the list. */
  lemma {:induction false} PreferredBeatsEnglish(contents: seq<Node>, lang: string, i: nat)
    requires i < |contents| && contents[i].Elem? && contents[i].name == lang
    ensures Select(contents, lang).Ok? && Select(contents, lang).value.Elem?
    ensures Select(contents, lang).value.name == lang
  {
    assert FirstNamed(contents, lang).Some?;
  }

  class ModDesc {
    const author: Option<string>
    const version: Option<string>
    const iconFilename: Option<string>
    const multiplayer: Option<map<string, string>>
    /** The live `contents` lists of the two localized elements; every access
        to the title or the description drops a `"\n"` text node from them. */
    var titles: Option<seq<Node>>
    var descriptions: Option<seq<Node>>

    /** `ModDesc(file)` once the document is parsed into `t`. */
    constructor (t: Tree)
      ensures author == t.author && version == t.version
      ensures iconFilename == t.iconFilename && multiplayer == t.multiplayer
      ensures titles == t.title && descriptions == t.description
    {
      author, version := t.author, t.version;
      iconFilename, multiplayer := t.iconFilename, t.multiplayer;
      titles, descriptions := t.title, t.description;
    }

    /** `soup.modDesc.author.text`: reading `.text` of a missing element
        raises `AttributeError`. */
    function Author(): (r: Result<string>)
      ensures r.Ok? <==> author.Some?
      ensures r.Ok? ==> r.value == author.value
      ensures r.Err? ==> r.error == AttributeError
    {
      if author.None? then Err(AttributeError) else Ok(author.value)
    }

    function Version(): (r: Result<string>)
      ensures r.Ok? <==> version.Some?
      ensures r.Ok? ==> r.value == version.value
      ensures r.Err? ==> r.error == AttributeError
    {
      if version.None? then Err(AttributeError) else Ok(version.value)
    }

    function Icon(): (r: Result<string>)
      ensures r.Ok? <==> iconFilename.Some?
      ensures r.Ok? ==> r.value == iconFilename.value
      ensures r.Err? ==> r.error == AttributeError
    {
      if iconFilename.None? then Err(AttributeError) else Ok(iconFilename.value)
    }

    /** `multiplayer["supported"] == "true"`: subscripting a missing element
        raises `TypeError`, a missing attribute `KeyError`. */
    function SupportMultiplayer(): (r: Result<bool>)
      ensures multiplayer.None? ==> r == Err(TypeError)
      ensures multiplayer.Some? && "supported" !in multiplayer.value ==> r == Err(KeyError)
      ensures multiplayer.Some? && "supported" in multiplayer.value ==>
                r.Ok? && (r.value <==> multiplayer.value["supported"] == "true")
    {
      match multiplayer
      case None => Err(TypeError)
      case Some(attrs) => if "supported" in attrs then Ok(attrs["supported"] == "true") else Err(KeyError)
    }

    /** The `title` property: drop the first `"\n"` child from the live list,
        then choose as `Select` does.  The text is returned as it is. */
    method Title(lang: string) returns (r: Result<string>)
      modifies this`titles
      ensures old(titles).None? ==> r == Err(AttributeError) && titles == old(titles)
      ensures old(titles).Some? ==> titles == Some(RemoveFirst(old(titles).value, Newline))
      ensures old(titles).Some? ==>
                var c := titles.value;
                match Select(c, lang)
                case Ok(n) => r == Ok(NodeText(n))
                case Err(e) => r == Err(e)
    {
      if titles.None? {
        return Err(AttributeError);
      }
      var contents := titles.value;
      if Newline in contents {
        contents := RemoveFirst(contents, Newline);
      }
      titles := Some(contents);
      var chosen := Select(contents, lang);
      r := if chosen.Ok? then Ok(NodeText(chosen.value)) else Err(chosen.error);
    }

    /** The `description` property: the same choice as the title, with the
        chosen text stripped of surrounding whitespace. */
    method Description(lang: string) returns (r: Result<string>)
      modifies this`descriptions
      ensures old(descriptions).None? ==> r == Err(AttributeError) && descriptions == old(descriptions)
      ensures old(descriptions).Some? ==> descriptions == Some(RemoveFirst(old(descriptions).value, Newline))
      ensures old(descriptions).Some? ==>
                var c := descriptions.value;
                match Select(c, lang)
                case Ok(n) => r == Ok(Strip(NodeText(n)))
                case Err(e) => r == Err(e)
    {
      if descriptions.None? {
        return Err(AttributeError);
      }
      var contents := descriptions.value;
      if Newline in contents {
        contents := RemoveFirst(contents, Newline);
      }
      descriptions := Some(contents);
      var chosen := Select(contents, lang);
      r := if chosen.Ok? then Ok(Strip(NodeText(chosen.value))) else Err(chosen.error);
    }
  }

  /** Two reads of the title drop the first two `"\n"` children. */
  method TitleTwice(d: ModDesc, lang: string) returns (first: Result<string>, second: Result<string>)
    requires d.titles.Some?
    modifies d`titles
    ensures d.titles == Some(RemoveFirst(RemoveFirst(old(d.titles).value, Newline), Newline))
    ensures multiset(old(d.titles).value) - multiset(d.titles.value) <= multiset{Newline, Newline}
    ensures d.descriptions == old(d.descriptions)
  {
    ghost var c := d.titles.value;
    first := d.Title(lang);
    second := d.Title(lang);
    AtMostTwoNewlinesGo(c);
  }

  /** Removing the first `"\n"` twice takes at most two newlines away and
      nothing else. */
  lemma AtMostTwoNewlinesGo(c: seq<Node>)
    ensures multiset(c) - multiset(RemoveFirst(RemoveFirst(c, Newline), Newline)) <= multiset{Newline, Newline}
  {
    var once := RemoveFirst(c, Newline);
    LessOne(c, Newline);
    LessOne(once, Newline);
    TwoTakenAway(multiset(c), multiset(once), multiset(RemoveFirst(once, Newline)), Newline);
  }

  /** Whether or not `x` occurs, `RemoveFirst` takes one `x` from the
      multiset of `s`. */
  lemma LessOne(s: seq<Node>, x: Node)
    ensures multiset(RemoveFirst(s, x)) == multiset(s) - multiset{x}
  {
    if x !in s {
      assert multiset(s)[x] == 0;
    }
  }

  /** Taking one `x` away twice leaves at most two `x` missing. */
  lemma TwoTakenAway(a: multiset<Node>, b: multiset<Node>, t: multiset<Node>, x: Node)
    requires b == a - multiset{x} && t == b - multiset{x}
    ensures a - t <= multiset{x, x}
  {
  }
}
