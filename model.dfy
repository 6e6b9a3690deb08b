/** The form tree as values: what a FormItem, a Group and a Form hold at one moment. */
module Model {

  /** The html_type values that have a renderer. */
  const HtmlTypes: set<string> := {"text", "number", "email", "submit", "textarea"}

  /** The html_type values that are controls only and carry no data to export. */
  const ControlTypes: set<string> := {"submit"}

  datatype ItemData = ItemData(
    name: string,
    value: string,
    placeholder: string,
    htmlType: string,
    id: string,
    hooks: seq<string>)

  datatype GroupData = GroupData(name: string, items: seq<ItemData>)

  /** A form's front-matter store: the metadata mapping of a front-matter document, or the plain
      string a specification supplied for the field (which is typed as a string). */
  datatype FrontMatter = Metadata(entries: map<string, string>) | Text(text: string)

  datatype FormData = FormData(name: string, groups: seq<GroupData>, frontMatter: FrontMatter, id: string)

  /** All items of the groups, in group order and then item order. */
  function FlatItems(groups: seq<GroupData>): seq<ItemData>
    decreases |groups|
  {
    if groups == [] then [] else FlatItems(groups[..|groups| - 1]) + groups[|groups| - 1].items
  }
}
