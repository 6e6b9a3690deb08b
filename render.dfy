/** HTML rendering of items, groups and forms. Values are concatenated raw; nothing is escaped. */
module Render {
  import opened Results
  import opened Model
  import Seqs

  function TextInput(x: ItemData): string {
    "<input type=\"text\" id=\"" + x.id + "\" name=\"" + x.name + "\" value=\"" + x.value
    + "\" placeholder=\"" + x.placeholder + "\">"
  }

  function NumberInput(x: ItemData): string {
    "<input type=\"number\" id=\"" + x.id + "\" name=\"" + x.name + "\" value=\"" + x.value
    + "\" placeholder=\"" + x.placeholder + "\">"
  }

  function EmailInput(x: ItemData): string {
    "<input type=\"email\" id=\"" + x.id + "\" name=\"" + x.name + "\" value=\"" + x.value
    + "\" placeholder=\"" + x.placeholder + "\">"
  }

  function SubmitButton(x: ItemData): string {
    "<button id=\"" + x.id + "\" name=\"" + x.name + "\">" + x.value + "</button>"
  }

  function TextArea(x: ItemData): string {
    "<textarea id=\"" + x.id + "\" name=\"" + x.name + "\" placeholder=\"" + x.placeholder + "\">"
    + x.value + "</textarea>"
  }

  /** One renderer per supported html_type, each giving the control that follows the label. */
  const RenderFunctions: map<string, ItemData -> string> := map[
    "text" := TextInput,
    "number" := NumberInput,
    "email" := EmailInput,
    "submit" := SubmitButton,
    "textarea" := TextArea
  ]

  function Label(x: ItemData): string {
    "<label for='" + x.id + "'>" + x.name + "</label>"
  }

  /** An item as HTML: its label, then the control its html_type selects. */
  function ItemHtml(x: ItemData): Result<string> {
    if x.htmlType in RenderFunctions then Ok(Label(x) + RenderFunctions[x.htmlType](x))
    else Err(UnknownHtmlType(x.htmlType))
  }

  /** Concatenates the renderings of `xs` in order; the first failure is the result. */
  function ConcatAll<T>(xs: seq<T>, f: T -> Result<string>): Result<string>
    decreases |xs|
  {
    if xs == [] then Ok("")
    else match ConcatAll(xs[..|xs| - 1], f)
      case Err(e) => Err(e)
      case Ok(s) =>
        match f(xs[|xs| - 1])
        case Err(e) => Err(e)
        case Ok(t) => Ok(s + t)
  }

  function GroupOpen(name: string): string {
    "<div class='group' id='" + name + "'>"
  }

  function GroupHtml(g: GroupData): Result<string> {
    match ConcatAll(g.items, ItemHtml)
    case Err(e) => Err(e)
    case Ok(s) => Ok(GroupOpen(g.name) + s + "</div>")
  }

  function FormHeader(name: string, id: string): string {
    "<h1>" + name + "</h1><form action='/" + id + "' method='POST'>"
  }

  function FormHtml(d: FormData): Result<string> {
    match ConcatAll(d.groups, GroupHtml)
    case Err(e) => Err(e)
    case Ok(s) => Ok(FormHeader(d.name, d.id) + s + "</form>")
  }

  /** The generic input element that the text, number and email renderers share. */
  function InputElement(x: ItemData): string {
    "<input type=\"" + x.htmlType + "\" id=\"" + x.id + "\" name=\"" + x.name + "\" value=\"" + x.value
    + "\" placeholder=\"" + x.placeholder + "\">"
  }

  // ---- items --------------------------------------------------------------------------------

  /** Exactly the supported html_types have a renderer. */
  lemma RenderFunctionsCoverHtmlTypes()
    ensures RenderFunctions.Keys == HtmlTypes
  {
  }

  /** An item renders exactly when its html_type is supported; otherwise the lookup fails naming it. */
  lemma ItemHtmlDefinedIff(x: ItemData)
    ensures ItemHtml(x).Ok? <==> x.htmlType in HtmlTypes
    ensures ItemHtml(x).Err? ==> ItemHtml(x).error == UnknownHtmlType(x.htmlType)
  {
    RenderFunctionsCoverHtmlTypes();
  }

  /** Text, number and email items render the same input element and differ only in its type. */
  lemma InputItemHtml(x: ItemData)
    requires x.htmlType in {"text", "number", "email"}
    ensures ItemHtml(x) == Ok(Label(x) + InputElement(x))
  {
    if x.htmlType == "text" {
      assert "<input type=\"" + x.htmlType + "\" id=\"" == "<input type=\"text\" id=\"";
    } else if x.htmlType == "number" {
      assert "<input type=\"" + x.htmlType + "\" id=\"" == "<input type=\"number\" id=\"";
    } else {
      assert "<input type=\"" + x.htmlType + "\" id=\"" == "<input type=\"email\" id=\"";
    }
  }

  /** A submit item renders a button whose body is the value; the placeholder plays no part. */
  lemma SubmitItemHtml(x: ItemData, placeholder: string)
    requires x.htmlType == "submit"
    ensures ItemHtml(x) == Ok(Label(x) + ("<button id=\"" + x.id + "\" name=\"" + x.name + "\">") + x.value + "</button>")
    ensures ItemHtml(x.(placeholder := placeholder)) == ItemHtml(x)
  {
    var open := "<button id=\"" + x.id + "\" name=\"" + x.name + "\">";
    assert Label(x) + (open + x.value + "</button>") == Label(x) + open + x.value + "</button>";
  }

  /** A textarea item renders the placeholder as an attribute and the value as the element's body. */
  lemma TextareaItemHtml(x: ItemData)
    requires x.htmlType == "textarea"
    ensures ItemHtml(x) == Ok(Label(x) + ("<textarea id=\"" + x.id + "\" name=\"" + x.name + "\" placeholder=\""
                              + x.placeholder + "\">") + x.value + "</textarea>")
  {
    var open := "<textarea id=\"" + x.id + "\" name=\"" + x.name + "\" placeholder=\"" + x.placeholder + "\">";
    assert Label(x) + (open + x.value + "</textarea>") == Label(x) + open + x.value + "</textarea>";
  }

  /** Rendering never looks at an item's hooks. */
  lemma ItemHtmlIgnoresHooks(x: ItemData, hooks: seq<string>)
    ensures ItemHtml(x.(hooks := hooks)) == ItemHtml(x)
  {
  }

  // ---- sequences ----------------------------------------------------------------------------

  lemma {:induction false} ConcatAllOkIff<T>(xs: seq<T>, f: T -> Result<string>)
    ensures ConcatAll(xs, f).Ok? <==> forall i :: 0 <= i < |xs| ==> f(xs[i]).Ok?
    decreases |xs|
  {
    if xs != [] {
      var front := xs[..|xs| - 1];
      ConcatAllOkIff(front, f);
      assert forall i :: 0 <= i < |front| ==> front[i] == xs[i];
    }
  }

  /** A failed concatenation reports the failure of one of its elements. */
  lemma {:induction false} ConcatAllErrorFromElement<T>(xs: seq<T>, f: T -> Result<string>)
    requires ConcatAll(xs, f).Err?
    ensures exists i :: 0 <= i < |xs| && f(xs[i]) == Err(ConcatAll(xs, f).error)
    decreases |xs|
  {
    var front := xs[..|xs| - 1];
    if ConcatAll(front, f).Err? {
      ConcatAllErrorFromElement(front, f);
      var i :| 0 <= i < |front| && f(front[i]) == Err(ConcatAll(front, f).error);
      assert f(xs[i]) == Err(ConcatAll(xs, f).error);
    } else {
      assert f(xs[|xs| - 1]) == Err(ConcatAll(xs, f).error);
    }
  }

  /** Once a prefix has failed, the elements after it change nothing. */
  lemma {:induction false} ConcatAllStopsAtFailure<T>(xs: seq<T>, f: T -> Result<string>, j: nat)
    requires j <= |xs|
    requires ConcatAll(xs[..j], f).Err?
    ensures ConcatAll(xs, f) == ConcatAll(xs[..j], f)
    decreases |xs| - j
  {
    if j < |xs| {
      var front := xs[..|xs| - 1];
      assert front[..j] == xs[..j];
      ConcatAllStopsAtFailure(front, f, j);
    } else {
      assert xs[..j] == xs;
    }
  }

  /** One more element: its rendering is appended, or its failure is the result of the whole. */
  lemma ConcatAllStep<T>(xs: seq<T>, f: T -> Result<string>, i: nat)
    requires i < |xs| && ConcatAll(xs[..i], f).Ok?
    ensures ConcatAll(xs[..i + 1], f)
            == match f(xs[i]) case Ok(t) => Ok(ConcatAll(xs[..i], f).value + t) case Err(e) => Err(e)
    ensures f(xs[i]).Err? ==> ConcatAll(xs, f) == Err(f(xs[i]).error)
  {
    assert xs[..i + 1][..i] == xs[..i];
    if f(xs[i]).Err? {
      ConcatAllStopsAtFailure(xs, f, i + 1);
    }
  }

  /** Rendering a concatenation of sequences concatenates the renderings, in order. */
  lemma {:induction false} ConcatAllAppend<T>(xs: seq<T>, ys: seq<T>, f: T -> Result<string>)
    requires ConcatAll(xs, f).Ok? && ConcatAll(ys, f).Ok?
    ensures ConcatAll(xs + ys, f) == Ok(ConcatAll(xs, f).value + ConcatAll(ys, f).value)
    decreases |ys|
  {
    if ys == [] {
      assert xs + ys == xs;
      assert ConcatAll(xs, f).value + "" == ConcatAll(xs, f).value;
    } else {
      var front := ys[..|ys| - 1];
      assert (xs + ys)[..|xs + ys| - 1] == xs + front;
      ConcatAllAppend(xs, front, f);
      var a, b, c := ConcatAll(xs, f).value, ConcatAll(front, f).value, f(ys[|ys| - 1]).value;
      assert a + b + c == a + (b + c);
    }
  }

  // ---- forms --------------------------------------------------------------------------------

  /** A form renders exactly when every item in every group has a supported html_type. */
  lemma FormHtmlOkIff(d: FormData)
    ensures FormHtml(d).Ok? <==>
            forall i, j :: 0 <= i < |d.groups| && 0 <= j < |d.groups[i].items| ==> d.groups[i].items[j].htmlType in HtmlTypes
  {
    ConcatAllOkIff(d.groups, GroupHtml);
    forall i | 0 <= i < |d.groups|
      ensures GroupHtml(d.groups[i]).Ok? <==>
              forall j :: 0 <= j < |d.groups[i].items| ==> d.groups[i].items[j].htmlType in HtmlTypes
    {
      ConcatAllOkIff(d.groups[i].items, ItemHtml);
      forall j | 0 <= j < |d.groups[i].items| {
        ItemHtmlDefinedIff(d.groups[i].items[j]);
      }
    }
  }

  /** A form that fails to render fails on an item of one of its groups whose html_type has no renderer. */
  lemma FormHtmlErrorNamesItem(d: FormData)
    requires FormHtml(d).Err?
    ensures exists i, j :: 0 <= i < |d.groups| && 0 <= j < |d.groups[i].items|
                           && d.groups[i].items[j].htmlType !in HtmlTypes
                           && FormHtml(d).error == UnknownHtmlType(d.groups[i].items[j].htmlType)
  {
    ConcatAllErrorFromElement(d.groups, GroupHtml);
    var i :| 0 <= i < |d.groups| && GroupHtml(d.groups[i]) == Err(FormHtml(d).error);
    ConcatAllErrorFromElement(d.groups[i].items, ItemHtml);
    var j :| 0 <= j < |d.groups[i].items| && ItemHtml(d.groups[i].items[j]) == Err(FormHtml(d).error);
    ItemHtmlDefinedIff(d.groups[i].items[j]);
  }

  /** The form's HTML is the heading and the opening form tag, one wrapper per group in order, and the
      closing tag: appending a group appends its wrapper just before `</form>`. */
  lemma FormHtmlAppendGroup(d: FormData, g: GroupData)
    requires FormHtml(d).Ok? && GroupHtml(g).Ok?
    ensures FormHtml(d.(groups := d.groups + [g]))
            == Ok(FormHeader(d.name, d.id) + ConcatAll(d.groups, GroupHtml).value + GroupHtml(g).value + "</form>")
  {
    assert (d.groups + [g])[..|d.groups|] == d.groups;
    var h, s, t := FormHeader(d.name, d.id), ConcatAll(d.groups, GroupHtml).value, GroupHtml(g).value;
    assert h + (s + t) + "</form>" == h + s + t + "</form>";
  }

  /** One more group in the form serializer: with `html` the heading and the wrappers of the groups
      before `i`, appending group `i`'s wrapper gives the heading and the wrappers up to `i`. */
  lemma FormHtmlStep(header: string, gs: seq<GroupData>, i: nat, html: string, part: string)
    requires i < |gs| && ConcatAll(gs[..i], GroupHtml).Ok? && html == header + ConcatAll(gs[..i], GroupHtml).value
    requires ConcatAll(gs[i].items, ItemHtml) == Ok(part)
    ensures ConcatAll(gs[..i + 1], GroupHtml).Ok?
    ensures html + GroupOpen(gs[i].name) + part + "</div>" == header + ConcatAll(gs[..i + 1], GroupHtml).value
  {
    ConcatAllStep(gs, GroupHtml, i);
    var acc, open := ConcatAll(gs[..i], GroupHtml).value, GroupOpen(gs[i].name);
    Seqs.AppendAssoc(header + acc, open, part);
    Seqs.AppendAssoc(header + acc, open + part, "</div>");
    Seqs.AppendAssoc(header, acc, open + part + "</div>");
  }

  /** A group that fails to render makes the whole form fail with its error. */
  lemma FormHtmlStopsAt(d: FormData, i: nat)
    requires i < |d.groups| && ConcatAll(d.groups[..i], GroupHtml).Ok? && ConcatAll(d.groups[i].items, ItemHtml).Err?
    ensures FormHtml(d) == Err(ConcatAll(d.groups[i].items, ItemHtml).error)
  {
    ConcatAllStep(d.groups, GroupHtml, i);
  }

  /** The form serializer's result once every group has been appended. */
  lemma FormHtmlDone(d: FormData, html: string)
    requires ConcatAll(d.groups[..|d.groups|], GroupHtml).Ok?
    requires html == FormHeader(d.name, d.id) + ConcatAll(d.groups[..|d.groups|], GroupHtml).value
    ensures FormHtml(d) == Ok(html + "</form>")
  {
    assert d.groups[..|d.groups|] == d.groups;
  }

  /** A form with no groups renders as the heading and an empty form element. */
  lemma FormHtmlNoGroups(d: FormData)
    requires d.groups == []
    ensures FormHtml(d) == Ok(FormHeader(d.name, d.id) + "</form>")
  {
    assert FormHeader(d.name, d.id) + "" == FormHeader(d.name, d.id);
  }

  /** Rendering never looks at the front matter. */
  lemma FormHtmlIgnoresFrontMatter(d: FormData, fm: FrontMatter)
    ensures FormHtml(d.(frontMatter := fm)) == FormHtml(d)
  {
  }
}
