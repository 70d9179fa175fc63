/** The HTML the notification emails are made of. A template is a list of
    blocks (banner, cards, a details box, an optional comments box, a bullet
    list, a notice and a footer) rendered into one document; inline styles
    are abbreviated to the colours that carry meaning. */
module Html {
  import opened Wrappers
  import opened Text

  /** A labelled line of a details box, the value optionally coloured. */
  datatype Field = Field(name: string, value: string, color: Option<string>)

  datatype Block =
    | Banner(background: string, title: string, subtitle: string)
    | Card(heading: string, paragraphs: seq<string>)
    | Details(heading: string, fields: seq<Field>)
    | Comments(text: string)
    | Bullets(heading: string, items: seq<string>)
    | Notice(text: string)
    | Footer(lines: seq<string>)

  function Concat(parts: seq<string>): string {
    if parts == [] then "" else parts[0] + Concat(parts[1..])
  }

  const DocumentOpen := "<div style=\"max-width: 600px; margin: 0 auto; font-family: Arial, sans-serif;\">"
  const ColoredOpen := "; font-weight: bold;\">"
  const BannerText := "; color: white;\"><h1>"
  const CommentsOpen := "<div><h3>Reviewer Comments</h3><div><p>"
  const NoticeOpen := "<div style=\"background: #fff3cd;\"><p>"

  function RenderField(f: Field): string {
    match f.color
    case None => "<p><strong>" + f.name + ":</strong> " + f.value + "</p>"
    case Some(c) => "<p><strong>" + f.name + ":</strong> <span style=\"color: " + c + ColoredOpen + f.value + "</span></p>"
  }

  function RenderBlock(b: Block): string {
    match b
    case Banner(bg, title, subtitle) =>
      "<div style=\"background: " + bg + BannerText + title + "</h1><p>" + subtitle + "</p></div>"
    case Card(heading, paragraphs) =>
      "<div>" + (if heading == "" then "" else "<h2>" + heading + "</h2>")
        + Concat(seq(|paragraphs|, i requires 0 <= i < |paragraphs| => "<p>" + paragraphs[i] + "</p>")) + "</div>"
    case Details(heading, fields) =>
      "<div><h3>" + heading + "</h3><div>"
        + Concat(seq(|fields|, i requires 0 <= i < |fields| => RenderField(fields[i]))) + "</div></div>"
    case Comments(text) =>
      CommentsOpen + text + "</p></div></div>"
    case Bullets(heading, items) =>
      "<div><h3>" + heading + "</h3><ul>"
        + Concat(seq(|items|, i requires 0 <= i < |items| => "<li>" + items[i] + "</li>")) + "</ul></div>"
    case Notice(text) =>
      NoticeOpen + text + "</p></div>"
    case Footer(lines) =>
      "<div>" + Concat(seq(|lines|, i requires 0 <= i < |lines| => "<p>" + lines[i] + "</p>")) + "</div>"
  }

  function RenderBlocks(bs: seq<Block>): string {
    if bs == [] then "" else RenderBlock(bs[0]) + RenderBlocks(bs[1..])
  }

  /** The HTML document sent as `html`. */
  function Render(bs: seq<Block>): string {
    DocumentOpen + RenderBlocks(bs) + "</div>"
  }

  /** Every block's markup appears in the rendered document. */
  lemma {:induction false} RenderShowsBlock(bs: seq<Block>, i: nat)
    requires i < |bs|
    ensures Includes(RenderBlocks(bs), RenderBlock(bs[i]))
    decreases |bs|
  {
    if i == 0 {
      IncludesPrefix(RenderBlock(bs[0]), RenderBlocks(bs[1..]));
    } else {
      RenderShowsBlock(bs[1..], i - 1);
      IncludesSuffix(RenderBlock(bs[0]), RenderBlocks(bs[1..]));
      IncludesTransitive(RenderBlocks(bs), RenderBlocks(bs[1..]), RenderBlock(bs[i]));
    }
  }

  lemma RenderShows(bs: seq<Block>, i: nat)
    requires i < |bs|
    ensures Includes(Render(bs), RenderBlock(bs[i]))
  {
    RenderShowsBlock(bs, i);
    IncludesMiddle(DocumentOpen, RenderBlocks(bs), "</div>");
    IncludesTransitive(Render(bs), RenderBlocks(bs), RenderBlock(bs[i]));
  }
  /** Every part appears in their concatenation. */
  lemma {:induction false} ConcatShows(parts: seq<string>, i: nat)
    requires i < |parts|
    ensures Includes(Concat(parts), parts[i])
    decreases |parts|
  {
    if i == 0 {
      IncludesPrefix(parts[0], Concat(parts[1..]));
    } else {
      ConcatShows(parts[1..], i - 1);
      IncludesSuffix(parts[0], Concat(parts[1..]));
      IncludesTransitive(Concat(parts), Concat(parts[1..]), parts[i]);
    }
  }

  /** A details box shows the value of each of its fields verbatim. */
  lemma DetailsShowValue(heading: string, fields: seq<Field>, i: nat)
    requires i < |fields|
    ensures Includes(RenderBlock(Details(heading, fields)), fields[i].value)
  {
    var f := fields[i];
    var parts := seq(|fields|, k requires 0 <= k < |fields| => RenderField(fields[k]));
    match f.color {
      case None =>
        IncludesMiddle("<p><strong>" + f.name + ":</strong> ", f.value, "</p>");
      case Some(c) =>
        IncludesMiddle("<p><strong>" + f.name + ":</strong> <span style=\"color: " + c + ColoredOpen,
          f.value, "</span></p>");
    }
    ConcatShows(parts, i);
    IncludesTransitive(Concat(parts), RenderField(f), f.value);
    IncludesMiddle("<div><h3>" + heading + "</h3><div>", Concat(parts), "</div></div>");
    IncludesTransitive(RenderBlock(Details(heading, fields)), Concat(parts), f.value);
  }
  /** The rendered document shows the value of every field of its details
      boxes. */
  lemma RenderShowsFieldValue(bs: seq<Block>, i: nat, j: nat)
    requires i < |bs| && bs[i].Details? && j < |bs[i].fields|
    ensures Includes(Render(bs), bs[i].fields[j].value)
  {
    RenderShows(bs, i);
    DetailsShowValue(bs[i].heading, bs[i].fields, j);
    IncludesTransitive(Render(bs), RenderBlock(bs[i]), bs[i].fields[j].value);
  }
}
