// The chapter exporter's view of a parsed chapter: an ordered list of blocks.
//
// A block is identified by its position in reading order (the database key is
// unique, so the exporter's id-keyed dictionaries are position-keyed ones).
// Every regular-expression test the repair passes make on a block's text is an
// attribute of the block; nothing below assumes anything about how the
// attributes of one block are related.
module ChapterBlocks {
  import opened Wrappers

  datatype Kind = Paragraph | Heading | ListItem | Figure | Caption | Code | Footnote | Other

  datatype Block = Block(
    kind: Kind,
    ordinal: int,
    page: Option<int>,          // page of the first region
    boxPage: Option<int>,       // page of the first region when it also has a usable box
    anchor: Option<nat>,        // the caption's own anchor
    linkedAnchor: Option<nat>,  // the caption anchor the parser linked to a figure
    realCaption: bool,          // text shaped like a caption, not body prose
    embedded: bool,             // image_type is "embedded_image"
    blank: bool,                // no text after stripping
    headerLike: bool,           // shaped like a running page header
    artifact: bool,             // shaped like a page-number artifact
    opensLower: bool,           // first character is a lower-case character
    startsLower: bool,          // first character is a lower-case letter
    endsLower: bool,            // last character is a lower-case letter
    orphanLead: bool,           // looks like the opening of a sliced sentence
    shortNoun: bool,            // short, unnumbered, unterminated heading
    calloutLead: bool,          // NOTE / TIP / WARNING lead
    itemNumber: Option<nat>,    // leading integer of an ordered-list item
    listingHeader: bool,        // "Listing N.M ..."
    annotated: bool,            // parser-flagged listing side annotation
    codeShaped: bool,           // not long multi-sentence prose
    section: Option<nat>,       // leading section number of a heading, numbered
    translated: bool,           // has translated chunks
    titled: bool)               // ... the first of which is more than a page number

  predicate IsPageHeader(b: Block) {
    b.kind.Paragraph? && !b.blank && b.headerLike
  }

  function Min(a: int, b: int): int {
    if a < b then a else b
  }
}
