/** The records of `src/db/models.rs` and the parsing of a link type from its stored name. */
module Models {
  import opened Wrappers

  /** Rust's `i32`. */
  newtype i32 = x: int | -0x8000_0000 <= x < 0x8000_0000

  /** A note row. Timestamps are kept as the text the database returns. */
  datatype Note = Note(
    id: i32,
    name: string,
    content: Option<string>,
    createdAt: string,
    updatedAt: string,
    deletedAt: Option<string>)

  /** The id and name of a note, as list views load them. */
  datatype NoteIdName = NoteIdName(id: i32, name: string)

  /** The kind of a link between two notes. */
  datatype LinkType = Related | Parent

  /** A link row; the source's `NaiveDateTime` values are kept as text. */
  datatype NoteLink = NoteLink(
    id: i32,
    sourceNoteId: i32,
    targetNoteId: i32,
    linkType: LinkType,
    createdAt: string,
    updatedAt: string,
    deletedAt: Option<string>)

  /** The one spelling `from_str` accepts for each link type. */
  function Spelling(t: LinkType): string {
    match t
    case Related => "related"
    case Parent => "parent"
  }

  /** `LinkType::from_str`: exact, case-sensitive match on the two spellings; anything else is `Err(())`. */
  function LinkTypeFromStr(s: string): (r: Result<LinkType, ()>)
    ensures r.Ok? <==> s == "related" || s == "parent"
    ensures r == Ok(Related) <==> s == "related"
    ensures r == Ok(Parent) <==> s == "parent"
  {
    match s
    case "related" => Ok(Related)
    case "parent" => Ok(Parent)
    case _ => Err(())
  }

  /** Parsing accepts exactly one spelling per link type, so it is a bijection onto the spellings. */
  lemma FromStrIsSpelling(s: string, t: LinkType)
    ensures LinkTypeFromStr(s) == Ok(t) <==> s == Spelling(t)
  {
  }

  /** Distinct accepted strings give distinct link types. */
  lemma FromStrInjective(s1: string, s2: string)
    requires LinkTypeFromStr(s1).Ok? && LinkTypeFromStr(s2).Ok?
    requires s1 != s2
    ensures LinkTypeFromStr(s1) != LinkTypeFromStr(s2)
  {
  }

  /** Matching is case-sensitive: capitalised spellings are rejected. */
  lemma FromStrCaseSensitive()
    ensures LinkTypeFromStr("Parent") == Err(())
    ensures LinkTypeFromStr("Related") == Err(())
    ensures LinkTypeFromStr("") == Err(())
  {
  }
}
