/** The records the scraper builds and hands to the report generator, and the
    abstract shape of the documents it reads. */
module Records {
  import opened Common

  /** The site every relative link is resolved against (`this.baseUrl`). */
  const BaseUrl: string := "https://www.parlament.gv.at"

  /** One named individual in an absence statement (`{name, profileUrl,
      club}`); the person cache and the name index hold values of the same
      shape. */
  datatype Mention = Mention(name: string, profileUrl: Option<string>, club: string)

  /** A hyperlink of a paragraph: its `href` attribute and its text. */
  datatype Link = Link(href: string, text: string)

  /** A `<p>` element: its text content and the links inside it, in document
      order. */
  datatype Paragraph = Paragraph(text: string, links: seq<Link>)

  /** A protocol document, reduced to its paragraphs. */
  datatype Document = Document(paragraphs: seq<Paragraph>)

  /** What `extractAbsentMembers` yields per paragraph: `{text, names}`. */
  datatype Statement = Statement(text: string, names: seq<Mention>)

  /** A statement attached to the protocol document it came from. */
  datatype Absence = Absence(text: string, names: seq<Mention>, protocolUrl: string)

  datatype ProtocolType = Full | Sections

  /** One successfully scraped session. */
  datatype SessionRecord = SessionRecord(session: int, url: string, protocolType: ProtocolType,
                                         absentMembers: seq<Absence>, scrapedAt: string)
}
