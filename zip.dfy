/** What the zip reader yields for a mod archive: the entry names in archive
    order (`namelist()`) and the parsed content of its `modDesc.xml` entry.
    Decompression and the XML parse are outside the model. */
module Zip {
  import ModDescs

  /** Name of the descriptor entry every mod archive must hold. */
  const DescriptorEntry: string := "modDesc.xml"

  datatype Archive = Archive(names: seq<string>, descriptor: ModDescs.Tree)
}
