/** The blog-post form the module defines at load time: three groups (post details, meta information
    with a slug field run through `slugify`, and a publish button), no ids and no front matter. */
module Example {
  import opened Results
  import opened Model
  import Loading
  import Render
  import Seqs
  import FrontMatterExport
  import Hooks
  import Forms
  import Slug

  function Entry(name: string, value: string, htmlType: string): Loading.ItemSpec {
    Loading.ItemSpec(Some(name), Some(value), None, Some(htmlType), None, None)
  }

  const PostSpec: Loading.FormSpec := Loading.FormSpec(
    Some("Publish a Blog Post"),
    Some([
      Loading.GroupSpec(Some("Post Details"), Some([Entry("Title", "Coffee", "text"), Entry("Body", "This is a test!", "textarea")])),
      Loading.GroupSpec(Some("Meta Information"), Some([Entry("Slug", "POST-EXAMPLE", "text").(hooks := Some(["slugify"]))])),
      Loading.GroupSpec(Some("Publish"), Some([Entry("Publish", "Publish", "submit")]))
    ]),
    None,
    None)

  function Field(ids: Loading.DefaultIds, name: string, value: string, htmlType: string, hooks: seq<string>): ItemData {
    ItemData(name, value, "", htmlType, ids.itemId, hooks)
  }

  /** The form the specification loads into: every item and the form take the shared default ids. */
  function PostData(ids: Loading.DefaultIds): FormData {
    FormData("Publish a Blog Post", [
      GroupData("Post Details", [Field(ids, "Title", "Coffee", "text", []), Field(ids, "Body", "This is a test!", "textarea", [])]),
      GroupData("Meta Information", [Field(ids, "Slug", "POST-EXAMPLE", "text", ["slugify"])]),
      GroupData("Publish", [Field(ids, "Publish", "Publish", "submit", [])])
    ], Metadata(map[]), ids.formId)
  }

  /** The front matter the export returns: the form name and the three data fields, the slug
      lower-cased by its hook. */
  const PostFrontMatter: map<string, string> :=
    map["form_name" := "Publish a Blog Post", "title" := "Coffee", "body" := "This is a test!", "slug" := "post-example"]

  lemma PostSpecLoads(ids: Loading.DefaultIds)
    ensures Loading.Resolve(PostSpec, ids) == Ok(PostData(ids))
  {
    var gs, d := PostSpec.groups.value, PostData(ids);
    forall i | 0 <= i < |gs|
      ensures Loading.ResolveGroup(gs[i], ids) == Ok(d.groups[i])
    {
      var items, ds := gs[i].items.value, d.groups[i].items;
      assert forall j :: 0 <= j < |items| ==> Loading.ResolveItem(items[j], ids) == Ok(ds[j]);
      GroupLoads(gs[i], d.groups[i], ids);
    }
    var resolved := Loading.MapAll(gs, (g: Loading.GroupSpec) => Loading.ResolveGroup(g, ids));
    assert resolved.Ok? && resolved.value == d.groups;
  }

  /** A group whose entries each load to the matching item loads to the group of those items. */
  lemma GroupLoads(g: Loading.GroupSpec, gd: GroupData, ids: Loading.DefaultIds)
    requires g.name == Some(gd.name) && g.items.Some? && |g.items.value| == |gd.items|
    requires forall j :: 0 <= j < |gd.items| ==> Loading.ResolveItem(g.items.value[j], ids) == Ok(gd.items[j])
    ensures Loading.ResolveGroup(g, ids) == Ok(gd)
  {
    var resolved := Loading.MapAll(g.items.value, (s: Loading.ItemSpec) => Loading.ResolveItem(s, ids));
    assert resolved.Ok? && resolved.value == gd.items;
  }

  lemma PostItems(ids: Loading.DefaultIds)
    ensures FlatItems(PostData(ids).groups) == PostData(ids).groups[0].items + PostData(ids).groups[1].items + PostData(ids).groups[2].items
  {
    var gs := PostData(ids).groups;
    assert gs[..3] == gs && gs[..3][..2] == gs[..2] && gs[..2][..1] == gs[..1] && gs[..1][..0] == [];
    assert FlatItems(gs[..1]) == gs[0].items;
    assert FlatItems(gs[..2]) == gs[0].items + gs[1].items;
  }

  lemma PostNames()
    ensures Slug.Lower("Title") == "title" && Slug.Lower("Body") == "body" && Slug.Lower("Slug") == "slug"
  {
    assert forall k :: 0 <= k < 5 ==> Slug.Lower("Title")[k] == "title"[k];
    assert forall k :: 0 <= k < 4 ==> Slug.Lower("Body")[k] == "body"[k];
    assert forall k :: 0 <= k < 4 ==> Slug.Lower("Slug")[k] == "slug"[k];
  }

  /** The export, item by item: the title and the body are written as given, the slug after its
      hook, and the button not at all. */
  lemma PostExportSteps(ids: Loading.DefaultIds, m: map<string, string>)
    ensures var xs := [Field(ids, "Title", "Coffee", "text", []), Field(ids, "Body", "This is a test!", "textarea", []),
                       Field(ids, "Slug", "POST-EXAMPLE", "text", ["slugify"]), Field(ids, "Publish", "Publish", "submit", [])];
            var e := FrontMatterExport.ExportAll(Hooks.Registry, m, xs);
            e.outcome == Pass && e.store == m["title" := "Coffee"]["body" := "This is a test!"]["slug" := "post-example"]
  {
    var xs := [Field(ids, "Title", "Coffee", "text", []), Field(ids, "Body", "This is a test!", "textarea", []),
               Field(ids, "Slug", "POST-EXAMPLE", "text", ["slugify"]), Field(ids, "Publish", "Publish", "submit", [])];
    assert xs[..4] == xs && xs[..4][..3] == xs[..3] && xs[..3][..2] == xs[..2] && xs[..2][..1] == xs[..1] && xs[..1][..0] == [];
    PostNames();
    Hooks.SlugHookExample();
    assert Hooks.Apply(Hooks.Registry, [], "Coffee") == Hooks.Hooked("Coffee", Pass);
    assert Hooks.Apply(Hooks.Registry, [], "This is a test!") == Hooks.Hooked("This is a test!", Pass);
    var e0 := FrontMatterExport.ExportAll(Hooks.Registry, m, []);
    var e1 := FrontMatterExport.ExportAll(Hooks.Registry, m, xs[..1]);
    assert e1 == FrontMatterExport.ExportStep(Hooks.Registry, e0, xs[0]);
    assert e1.store == m["title" := "Coffee"] && e1.outcome == Pass;
    var e2 := FrontMatterExport.ExportAll(Hooks.Registry, m, xs[..2]);
    assert e2.store == e1.store["body" := "This is a test!"] && e2.outcome == Pass;
    var e3 := FrontMatterExport.ExportAll(Hooks.Registry, m, xs[..3]);
    assert e3.store == e2.store["slug" := "post-example"] && e3.outcome == Pass;
  }

  /** Exporting the loaded form writes exactly the four keys; the publish button is skipped. */
  lemma PostExport(ids: Loading.DefaultIds)
    ensures var d := PostData(ids);
            FrontMatterExport.SerializeFrontMatter(Hooks.Registry, d.name, d.frontMatter, FlatItems(d.groups)).result
              == Ok(PostFrontMatter)
    ensures PostFrontMatter.Keys == {"form_name", "title", "body", "slug"} && "publish" !in PostFrontMatter
  {
    var d := PostData(ids);
    PostItems(ids);
    assert FlatItems(d.groups) == [d.groups[0].items[0], d.groups[0].items[1], d.groups[1].items[0], d.groups[2].items[0]];
    var m := map[FrontMatterExport.FormNameKey := "Publish a Blog Post"];
    PostExportSteps(ids, m);
    assert m["title" := "Coffee"]["body" := "This is a test!"]["slug" := "post-example"] == PostFrontMatter;
  }

  /** The example's markup: Title and Slug render as text inputs, Body as the form's only textarea
      and Publish as its only button, each after its label, in group order. */
  lemma PostHtml(ids: Loading.DefaultIds)
    ensures var d := PostData(ids);
      var t, b, s, p := d.groups[0].items[0], d.groups[0].items[1], d.groups[1].items[0], d.groups[2].items[0];
      Render.FormHtml(d) == Ok(
        Render.FormHeader(d.name, d.id)
        + (Render.GroupOpen("Post Details") + (Render.Label(t) + Render.TextInput(t)) + (Render.Label(b) + Render.TextArea(b)) + "</div>")
        + (Render.GroupOpen("Meta Information") + (Render.Label(s) + Render.TextInput(s)) + "</div>")
        + (Render.GroupOpen("Publish") + (Render.Label(p) + Render.SubmitButton(p)) + "</div>")
        + "</form>")
  {
    var d := PostData(ids);
    var gs := d.groups;
    assert gs == [gs[0], gs[1], gs[2]];
    PostGroupHtml(ids);
    ConcatThree(gs[0], gs[1], gs[2], Render.GroupHtml);
    var w0, w1, w2 := Render.GroupHtml(gs[0]).value, Render.GroupHtml(gs[1]).value, Render.GroupHtml(gs[2]).value;
    var h := Render.FormHeader(d.name, d.id);
    Seqs.AppendAssoc(h, w0 + w1, w2);
    Seqs.AppendAssoc(h, w0, w1);
  }

  /** The markup of each of the example's three groups. */
  lemma PostGroupHtml(ids: Loading.DefaultIds)
    ensures var gs := PostData(ids).groups;
      var t, b, s, p := gs[0].items[0], gs[0].items[1], gs[1].items[0], gs[2].items[0];
      && Render.GroupHtml(gs[0]) == Ok(Render.GroupOpen("Post Details") + (Render.Label(t) + Render.TextInput(t)) + (Render.Label(b) + Render.TextArea(b)) + "</div>")
      && Render.GroupHtml(gs[1]) == Ok(Render.GroupOpen("Meta Information") + (Render.Label(s) + Render.TextInput(s)) + "</div>")
      && Render.GroupHtml(gs[2]) == Ok(Render.GroupOpen("Publish") + (Render.Label(p) + Render.SubmitButton(p)) + "</div>")
  {
    var gs := PostData(ids).groups;
    var t, b, s, p := gs[0].items[0], gs[0].items[1], gs[1].items[0], gs[2].items[0];
    assert Render.ItemHtml(t) == Ok(Render.Label(t) + Render.TextInput(t));
    assert Render.ItemHtml(b) == Ok(Render.Label(b) + Render.TextArea(b));
    assert Render.ItemHtml(s) == Ok(Render.Label(s) + Render.TextInput(s));
    assert Render.ItemHtml(p) == Ok(Render.Label(p) + Render.SubmitButton(p));
    assert gs[0].items == [t, b];
    GroupOfTwo(gs[0]);
    assert gs[1].items == [s];
    GroupOfOne(gs[1]);
    assert gs[2].items == [p];
    GroupOfOne(gs[2]);
  }

  lemma GroupOfOne(g: GroupData)
    requires |g.items| == 1 && Render.ItemHtml(g.items[0]).Ok?
    ensures Render.GroupHtml(g) == Ok(Render.GroupOpen(g.name) + Render.ItemHtml(g.items[0]).value + "</div>")
  {
    assert g.items == [g.items[0]];
    ConcatOne(g.items[0], Render.ItemHtml);
  }

  lemma GroupOfTwo(g: GroupData)
    requires |g.items| == 2 && Render.ItemHtml(g.items[0]).Ok? && Render.ItemHtml(g.items[1]).Ok?
    ensures Render.GroupHtml(g) == Ok(Render.GroupOpen(g.name) + Render.ItemHtml(g.items[0]).value + Render.ItemHtml(g.items[1]).value + "</div>")
  {
    assert g.items == [g.items[0], g.items[1]];
    ConcatTwo(g.items[0], g.items[1], Render.ItemHtml);
    Seqs.AppendAssoc(Render.GroupOpen(g.name), Render.ItemHtml(g.items[0]).value, Render.ItemHtml(g.items[1]).value);
  }

  lemma ConcatOne<T>(x: T, f: T -> Result<string>)
    requires f(x).Ok?
    ensures Render.ConcatAll([x], f) == f(x)
  {
    assert [x][..0] == [] && "" + f(x).value == f(x).value;
  }

  lemma ConcatTwo<T>(x: T, y: T, f: T -> Result<string>)
    requires f(x).Ok? && f(y).Ok?
    ensures Render.ConcatAll([x, y], f) == Ok(f(x).value + f(y).value)
  {
    assert [x, y][..1] == [x];
    ConcatOne(x, f);
  }

  lemma ConcatThree<T>(x: T, y: T, z: T, f: T -> Result<string>)
    requires f(x).Ok? && f(y).Ok? && f(z).Ok?
    ensures Render.ConcatAll([x, y, z], f) == Ok(f(x).value + f(y).value + f(z).value)
  {
    assert [x, y, z][..2] == [x, y];
    ConcatTwo(x, y, f);
  }

  /** Loads the example specification into objects and exports their front matter. */
  method ExportPost(ids: Loading.DefaultIds) returns (r: Result<map<string, string>>)
    ensures r == Ok(PostFrontMatter)
  {
    PostSpecLoads(ids);
    var loaded := Forms.Form.LoadFromSpecification(PostSpec, ids);
    var form := loaded.value;
    form.ItemStatesAreFlatItems();
    PostExport(ids);
    r := form.SerializeAsFrontMatter();
  }
}
