/** The inline text fragment handed to the converter. Its Python definition
    (src/textnode.py) is not part of this model: only the three attributes the
    converter reads are kept, and equality is Dafny's structural equality. */
module TextNodes {
  import opened Wrappers

  /** The fragment kinds. `Other` stands for any value that is not one of the
      six recognised members, such as a member of a foreign enumeration. */
  datatype TextType =
    | Text
    | Bold
    | Italic
    | Code
    | Link
    | Image
    | Other(name: string)

  datatype TextNode = TextNode(text: Option<string>, textType: TextType, url: Option<string>)
}
