/** The form tree as objects: items whose values hooks rewrite in place, groups that hold them, and
    forms that render themselves and export their values into a front-matter store they own. */
module Forms {
  import opened Results
  import opened Model
  import Hooks
  import Render
  import Seqs
  import FrontMatterExport
  import Loading
  import Slug

  /** A field of a form. Only its value is ever rewritten. */
  class FormItem {
    const name: string
    var value: string
    const placeholder: string
    const htmlType: string
    const id: string
    const hooks: seq<string>

    constructor (d: ItemData)
      ensures Data() == d
    {
      name, value, placeholder, htmlType, id, hooks := d.name, d.value, d.placeholder, d.htmlType, d.id, d.hooks;
    }

    function Data(): ItemData
      reads this
    {
      ItemData(name, value, placeholder, htmlType, id, hooks)
    }

    /** Runs the hooks in list order, replacing the value with each hook's result. An unregistered
        name stops the run with the value the earlier hooks left. */
    method RunHooks() returns (o: Outcome)
      modifies this
      ensures value == Hooks.Apply(Hooks.Registry, hooks, old(value)).value
      ensures o == Hooks.Apply(Hooks.Registry, hooks, old(value)).outcome
    {
      var i := 0;
      while i < |hooks|
        invariant 0 <= i <= |hooks|
        invariant Hooks.Apply(Hooks.Registry, hooks[..i], old(value)) == Hooks.Hooked(value, Pass)
      {
        var h := hooks[i];
        assert hooks[..i + 1][..i] == hooks[..i];
        if h !in Hooks.Registry {
          Hooks.ApplyStopsAtFailure(Hooks.Registry, hooks, i + 1, old(value));
          return Fail(UnknownHook(h));
        }
        value := Hooks.Registry[h](value);
        i := i + 1;
      }
      assert hooks[..i] == hooks;
      o := Pass;
    }

    /** This item's share of a front-matter export into `store`: a control is skipped; any other
        item runs its hooks and, when they all ran, is written under its lower-cased name. */
    method ExportTo(store: map<string, string>) returns (written: map<string, string>, o: Outcome)
      modifies this
      ensures var one := FrontMatterExport.ExportStep(Hooks.Registry, FrontMatterExport.Export(store, [], Pass), old(Data()));
              written == one.store && o == one.outcome && one.items == [Data()]
    {
      if htmlType in ControlTypes {
        return store, Pass;
      }
      o := RunHooks();
      written := if o.Pass? then store[Slug.Lower(name) := value] else store;
    }
  }

  /** A named, ordered collection of items. */
  datatype Group = Group(name: string, items: seq<FormItem>)

  /** The items of the groups in group order, then item order. */
  function Flatten(gs: seq<Group>): seq<FormItem>
    decreases |gs|
  {
    if gs == [] then [] else Flatten(gs[..|gs| - 1]) + gs[|gs| - 1].items
  }

  predicate Distinct<T(==)>(s: seq<T>) {
    forall i, j :: 0 <= i < j < |s| ==> s[i] != s[j]
  }

  /** The values the items currently hold, in order. */
  function Datas(xs: seq<FormItem>): seq<ItemData>
    reads set x | x in xs
  {
    seq(|xs|, i requires 0 <= i < |xs| reads set x | x in xs => xs[i].Data())
  }

  /** Position `i` of the values is the value item `i` holds. */
  lemma DatasAt(xs: seq<FormItem>)
    ensures |Datas(xs)| == |xs| && forall i :: 0 <= i < |xs| ==> Datas(xs)[i] == xs[i].Data()
  {
  }

  function GroupDatas(gs: seq<Group>): (ds: seq<GroupData>)
    reads set x | x in Flatten(gs)
    ensures |ds| == |gs| && forall i :: 0 <= i < |gs| ==> ds[i] == GroupData(gs[i].name, Datas(gs[i].items))
    decreases |gs|
  {
    if gs == [] then [] else GroupDatas(gs[..|gs| - 1]) + [GroupData(gs[|gs| - 1].name, Datas(gs[|gs| - 1].items))]
  }

  /** Midway through exporting a group: the first `i` items hold their exported values `ys`, the
      others still hold their values `xs` from before the export. */
  ghost predicate Staged(items: seq<FormItem>, i: nat, ys: seq<ItemData>, xs: seq<ItemData>)
    reads set x | x in items
  {
    i <= |items| == |xs| && |ys| == i
    && (forall j :: 0 <= j < i ==> items[j].Data() == ys[j])
    && (forall j :: i <= j < |items| ==> items[j].Data() == xs[j])
  }

  /** The turn of item `i` in the export of a group: the items before it already hold their exported
      values `ys`, it and the items after it still hold their values `xs`. */
  method ExportItem(items: seq<FormItem>, i: nat, store: map<string, string>, ghost ys: seq<ItemData>, ghost xs: seq<ItemData>)
      returns (written: map<string, string>, o: Outcome)
    requires Distinct(items) && i < |items| && Staged(items, i, ys, xs)
    modifies items[i]
    ensures FrontMatterExport.ExportFrom(Hooks.Registry, FrontMatterExport.Export(store, ys, Pass), xs[i..])
            == FrontMatterExport.ExportFrom(Hooks.Registry, FrontMatterExport.Export(written, ys + [items[i].Data()], o), xs[i + 1..])
    ensures Staged(items, i + 1, ys + [items[i].Data()], xs)
  {
    var item := items[i];
    assert forall j :: 0 <= j < |items| && j != i ==> items[j] != item;
    written, o := item.ExportTo(store);
    FrontMatterExport.ExportFromAt(Hooks.Registry, store, ys, xs, i);
  }

  /** Exports a group's items in order, continuing the export in `store`; an unknown hook stops it
      at that item. */
  method ExportGroupItems(items: seq<FormItem>, store: map<string, string>) returns (written: map<string, string>, o: Outcome)
    requires Distinct(items)
    modifies set x | x in items
    ensures var e := FrontMatterExport.ExportFrom(Hooks.Registry, FrontMatterExport.Export(store, [], Pass), old(Datas(items)));
            written == e.store && o == e.outcome && Datas(items) == e.items
  {
    ghost var xs := Datas(items);
    ghost var final := FrontMatterExport.ExportFrom(Hooks.Registry, FrontMatterExport.Export(store, [], Pass), xs);
    written, o := store, Pass;
    ghost var ys: seq<ItemData> := [];
    var i := 0;
    while i < |items| && o.Pass?
      invariant Staged(items, i, ys, xs)
      invariant FrontMatterExport.ExportFrom(Hooks.Registry, FrontMatterExport.Export(written, ys, o), xs[i..]) == final
    {
      written, o := ExportItem(items, i, written, ys, xs);
      ys := ys + [items[i].Data()];
      i := i + 1;
    }
    ExportItemsDone(items, i, written, o, ys, xs, final);
  }

  /** When the export of a group stops, the items hold the values the export left. */
  lemma ExportItemsDone(items: seq<FormItem>, i: nat, written: map<string, string>, o: Outcome,
                        ys: seq<ItemData>, xs: seq<ItemData>, final: FrontMatterExport.Export)
    requires Staged(items, i, ys, xs) && !(i < |items| && o.Pass?)
    requires FrontMatterExport.ExportFrom(Hooks.Registry, FrontMatterExport.Export(written, ys, o), xs[i..]) == final
    ensures written == final.store && o == final.outcome && Datas(items) == final.items
  {
    if o.Fail? {
      FrontMatterExport.ExportFromFailed(Hooks.Registry, FrontMatterExport.Export(written, ys, o), xs[i..]);
    } else {
      assert xs[i..] == [];
    }
    var states := ys + xs[i..];
    assert forall j :: 0 <= j < |items| ==> Datas(items)[j] == states[j];
  }

  /** Midway through exporting a form: the items `done` hold their exported values `ys`, the items
      `todo` still hold their values `rest` from before the export. */
  ghost predicate Split(done: seq<FormItem>, todo: seq<FormItem>, ys: seq<ItemData>, rest: seq<ItemData>)
    reads set x | x in done, set x | x in todo
  {
    Datas(done) == ys && Datas(todo) == rest
  }

  /** The turn of group `gi` in the export of a form: the export continues through its items, which
      then join those already exported. */
  method ExportGroupAt(groups: seq<Group>, gi: nat, store: map<string, string>, ghost done: seq<FormItem>,
                       ghost ys: seq<ItemData>, ghost rest: seq<ItemData>)
      returns (written: map<string, string>, o: Outcome, ghost ys': seq<ItemData>, ghost rest': seq<ItemData>)
    requires gi < |groups| && Distinct(done + Flatten(groups[gi..])) && Split(done, Flatten(groups[gi..]), ys, rest)
    modifies set x | x in groups[gi].items
    ensures FrontMatterExport.ExportFrom(Hooks.Registry, FrontMatterExport.Export(store, ys, Pass), rest)
            == FrontMatterExport.ExportFrom(Hooks.Registry, FrontMatterExport.Export(written, ys', o), rest')
    ensures Split(done + groups[gi].items, Flatten(groups[gi + 1..]), ys', rest')
    ensures done + Flatten(groups[gi..]) == done + groups[gi].items + Flatten(groups[gi + 1..])
  {
    var items := groups[gi].items;
    ghost var later := Flatten(groups[gi + 1..]);
    FlattenCons(groups, gi);
    Seqs.AppendAssoc(done, items, later);
    DistinctParts(done, items, later);
    DatasAppend(items, later);
    ghost var chunk, after := Datas(items), Datas(later);
    ghost var e := FrontMatterExport.ExportFrom(Hooks.Registry, FrontMatterExport.Export(store, [], Pass), chunk);
    FrontMatterExport.ExportFromChunk(Hooks.Registry, store, ys, chunk, after);
    written, o := ExportGroupItems(items, store);
    DatasAppend(done, items);
    ys', rest' := ys + e.items, after;
  }

  /** When the export of a form stops, the items hold the values the export left. */
  lemma ExportGroupsDone(groups: seq<Group>, gi: nat, written: map<string, string>, o: Outcome, done: seq<FormItem>,
                         todo: seq<FormItem>, ys: seq<ItemData>, rest: seq<ItemData>, final: FrontMatterExport.Export)
    requires gi <= |groups| && todo == Flatten(groups[gi..]) && !(gi < |groups| && o.Pass?) && Split(done, todo, ys, rest)
    requires FrontMatterExport.ExportFrom(Hooks.Registry, FrontMatterExport.Export(written, ys, o), rest) == final
    ensures written == final.store && o == final.outcome && Datas(done + todo) == final.items
  {
    if o.Fail? {
      FrontMatterExport.ExportFromFailed(Hooks.Registry, FrontMatterExport.Export(written, ys, o), rest);
    } else {
      assert groups[gi..] == [];
    }
    DatasAppend(done, todo);
  }

  /** Exports the items of the groups in group order, then item order, continuing the export in
      `store`; an unknown hook stops it at that item. */
  method ExportGroups(groups: seq<Group>, store: map<string, string>) returns (written: map<string, string>, o: Outcome)
    requires Distinct(Flatten(groups))
    modifies set x | x in Flatten(groups)
    ensures var e := FrontMatterExport.ExportFrom(Hooks.Registry, FrontMatterExport.Export(store, [], Pass), old(Datas(Flatten(groups))));
            written == e.store && o == e.outcome && Datas(Flatten(groups)) == e.items
  {
    ghost var final := FrontMatterExport.ExportFrom(Hooks.Registry, FrontMatterExport.Export(store, [], Pass), Datas(Flatten(groups)));
    ghost var done: seq<FormItem> := [];
    ghost var ys: seq<ItemData> := [];
    ghost var rest := Datas(Flatten(groups));
    assert groups[0..] == groups && [] + Flatten(groups) == Flatten(groups);
    written, o := store, Pass;
    var gi := 0;
    while gi < |groups| && o.Pass?
      invariant 0 <= gi <= |groups| && Flatten(groups) == done + Flatten(groups[gi..])
      invariant Split(done, Flatten(groups[gi..]), ys, rest)
      invariant FrontMatterExport.ExportFrom(Hooks.Registry, FrontMatterExport.Export(written, ys, o), rest) == final
    {
      FlattenCons(groups, gi);
      written, o, ys, rest := ExportGroupAt(groups, gi, written, done, ys, rest);
      done := done + groups[gi].items;
      gi := gi + 1;
    }
    ExportGroupsDone(groups, gi, written, o, done, Flatten(groups[gi..]), ys, rest, final);
  }

  lemma {:induction false} FlattenAppend(a: seq<Group>, b: seq<Group>)
    ensures Flatten(a + b) == Flatten(a) + Flatten(b)
    decreases |b|
  {
    if b == [] {
      assert a + b == a;
    } else {
      var front, last := b[..|b| - 1], b[|b| - 1];
      assert (a + b)[..|a + b| - 1] == a + front && (a + b)[|a + b| - 1] == last;
      FlattenAppend(a, front);
      Seqs.AppendAssoc(Flatten(a), Flatten(front), last.items);
    }
  }

  lemma FlattenSnoc(a: seq<Group>, g: Group)
    ensures Flatten(a + [g]) == Flatten(a) + g.items
  {
    assert (a + [g])[..|a|] == a;
  }

  /** The flat item values of a group tree are the values of its flattened items. */
  lemma {:induction false} FlatItemsOfGroups(gs: seq<Group>)
    ensures |FlatItems(GroupDatas(gs))| == |Flatten(gs)|
    ensures forall j :: 0 <= j < |Flatten(gs)| ==> FlatItems(GroupDatas(gs))[j] == Flatten(gs)[j].Data()
    decreases |gs|
  {
    if gs != [] {
      var front, last := gs[..|gs| - 1], gs[|gs| - 1];
      FlatItemsOfGroups(front);
      assert GroupDatas(gs)[..|gs| - 1] == GroupDatas(front);
      var before := FlatItems(GroupDatas(front));
      assert FlatItems(GroupDatas(gs)) == before + Datas(last.items);
      assert Flatten(gs) == Flatten(front) + last.items;
      DatasAt(last.items);
      forall j | |before| <= j < |Flatten(gs)|
        ensures FlatItems(GroupDatas(gs))[j] == Flatten(gs)[j].Data()
      {
        assert Flatten(gs)[j] == last.items[j - |before|];
      }
    }
  }

  /** Builds one fresh item per value, in order. */
  method NewItems(ds: seq<ItemData>) returns (items: seq<FormItem>)
    ensures Datas(items) == ds && Distinct(items) && forall x :: x in items ==> fresh(x)
  {
    items := [];
    var i := 0;
    while i < |ds|
      invariant 0 <= i <= |ds| && |items| == i
      invariant Datas(items) == ds[..i] && Distinct(items) && forall x :: x in items ==> fresh(x)
    {
      var x := new FormItem(ds[i]);
      DistinctConcat(items, [x]);
      DatasAppend(items, [x]);
      assert ds[..i + 1] == ds[..i] + [ds[i]];
      items := items + [x];
      i := i + 1;
    }
    assert ds[..i] == ds;
  }

  lemma DistinctConcat(a: seq<FormItem>, b: seq<FormItem>)
    requires Distinct(a) && Distinct(b) && forall x :: x in a ==> x !in b
    ensures Distinct(a + b)
  {
    var s := a + b;
    forall i, j | 0 <= i < j < |s|
      ensures s[i] != s[j]
    {
      if j < |a| {
        assert s[i] == a[i] && s[j] == a[j];
      } else if |a| <= i {
        assert s[i] == b[i - |a|] && s[j] == b[j - |a|];
      } else {
        assert s[i] in a && s[j] in b;
      }
    }
  }

  lemma DatasAppend(a: seq<FormItem>, b: seq<FormItem>)
    ensures Datas(a + b) == Datas(a) + Datas(b)
  {
    assert forall j :: 0 <= j < |a + b| ==> Datas(a + b)[j] == (Datas(a) + Datas(b))[j];
  }

  lemma DistinctParts(a: seq<FormItem>, b: seq<FormItem>, c: seq<FormItem>)
    requires Distinct(a + b + c)
    ensures Distinct(b) && forall x :: x in b ==> x !in a && x !in c
  {
    var s := a + b + c;
    assert forall k :: 0 <= k < |b| ==> b[k] == s[|a| + k];
    assert forall k :: 0 <= k < |a| ==> a[k] == s[k];
    assert forall k :: 0 <= k < |c| ==> c[k] == s[|a| + |b| + k];
  }

  /** The items of the groups from `i` on are those of group `i`, then those of the groups after it. */
  lemma FlattenCons(gs: seq<Group>, i: nat)
    requires i < |gs|
    ensures Flatten(gs[i..]) == gs[i].items + Flatten(gs[i + 1..])
  {
    assert gs[i..] == [gs[i]] + gs[i + 1..];
    FlattenAppend([gs[i]], gs[i + 1..]);
    assert Flatten([gs[i]]) == Flatten([]) + gs[i].items;
  }

  /** Builds one more group with fresh items after `groups`. */
  method NewGroup(groups: seq<Group>, gd: GroupData) returns (next: seq<Group>)
    requires Distinct(Flatten(groups)) && forall x :: x in Flatten(groups) ==> allocated(x)
    ensures |next| == |groups| + 1 && next[..|groups|] == groups && next[|groups|].name == gd.name
    ensures Distinct(Flatten(next)) && GroupDatas(next) == old(GroupDatas(groups)) + [gd]
    ensures forall x :: x in Flatten(next) ==> x in Flatten(groups) || fresh(x)
  {
    var items := NewItems(gd.items);
    var g := Group(gd.name, items);
    next := groups + [g];
    FlattenSnoc(groups, g);
    DistinctConcat(Flatten(groups), items);
    assert next[..|groups|] == groups;
  }

  /** A form: a name, its groups, an id and a front-matter store that exporting writes into. */
  class Form {
    const name: string
    const groups: seq<Group>
    var frontMatter: FrontMatter
    const id: string

    constructor (name: string, groups: seq<Group>, frontMatter: FrontMatter, id: string)
      ensures this.name == name && this.groups == groups && this.frontMatter == frontMatter && this.id == id
    {
      this.name, this.groups, this.frontMatter, this.id := name, groups, frontMatter, id;
    }

    function Items(): seq<FormItem> {
      Flatten(groups)
    }

    function Repr(): set<FormItem> {
      set x | x in Items()
    }

    /** The form owns its items: no item appears twice in the tree. */
    ghost predicate Valid() {
      Distinct(Items())
    }

    function Data(): FormData
      reads this, Repr()
    {
      FormData(name, GroupDatas(groups), frontMatter, id)
    }

    /** The values of all items, in group order and then item order. */
    function ItemStates(): seq<ItemData>
      reads Repr()
    {
      Datas(Items())
    }

    /** The item values are those of the group tree, flattened. */
    lemma ItemStatesAreFlatItems()
      ensures ItemStates() == FlatItems(Data().groups)
    {
      FlatItemsOfGroups(groups);
    }

    /** Renders the heading and a form element holding one wrapper per group, appending each item's
        markup in turn; the form is not changed, so its state before and after is the same. */
    method SerializeAsHtml() returns (r: Result<string>)
      ensures r == Render.FormHtml(old(Data()))
    {
      ghost var d := Data();
      ghost var header := Render.FormHeader(name, id);
      var html := Render.FormHeader(name, id);
      assert d.groups[..0] == [] && header + "" == header;
      var gi := 0;
      while gi < |groups|
        invariant 0 <= gi <= |groups|
        invariant Render.ConcatAll(d.groups[..gi], Render.GroupHtml).Ok?
        invariant html == header + Render.ConcatAll(d.groups[..gi], Render.GroupHtml).value
      {
        var group := groups[gi];
        ghost var g, prefix := d.groups[gi], html;
        assert g.items == Datas(group.items);
        html := html + Render.GroupOpen(group.name);
        ghost var start := html;
        assert g.items[..0] == [] && start + "" == start;
        var j := 0;
        while j < |group.items|
          invariant 0 <= j <= |group.items|
          invariant Render.ConcatAll(g.items[..j], Render.ItemHtml).Ok?
          invariant html == start + Render.ConcatAll(g.items[..j], Render.ItemHtml).value
        {
          var part := Render.ItemHtml(group.items[j].Data());
          Render.ConcatAllStep(g.items, Render.ItemHtml, j);
          if part.Err? {
            Render.FormHtmlStopsAt(d, gi);
            return Err(part.error);
          }
          Seqs.AppendAssoc(start, Render.ConcatAll(g.items[..j], Render.ItemHtml).value, part.value);
          html := html + part.value;
          j := j + 1;
        }
        assert g.items[..j] == g.items;
        Render.FormHtmlStep(header, d.groups, gi, prefix, Render.ConcatAll(g.items, Render.ItemHtml).value);
        html := html + "</div>";
        gi := gi + 1;
      }
      Render.FormHtmlDone(d, html);
      html := html + "</form>";
      r := Ok(html);
    }

    /** Stores `m` as the front matter; the items are not touched. */
    method StoreFrontMatter(m: map<string, string>)
      modifies this
      ensures frontMatter == Metadata(m) && ItemStates() == old(ItemStates())
    {
      frontMatter := Metadata(m);
    }

    /** Writes the form name into the stored front matter, then, for every item that is not a
        control, runs its hooks and maps its lower-cased name to its value. Returns the stored
        mapping itself. */
    method SerializeAsFrontMatter() returns (r: Result<map<string, string>>)
      requires Valid()
      modifies this, Repr()
      ensures var run := FrontMatterExport.SerializeFrontMatter(Hooks.Registry, name, old(frontMatter), old(ItemStates()));
              r == run.result && frontMatter == run.frontMatter && ItemStates() == run.items
    {
      if frontMatter.Text? {
        return Err(FrontMatterNotMapping);
      }
      var entries := frontMatter.entries[FrontMatterExport.FormNameKey := name];
      assert [] + ItemStates() == ItemStates();
      FrontMatterExport.ExportFromIsExportAll(Hooks.Registry, entries, [], ItemStates());
      var o;
      entries, o := ExportGroups(groups, entries);
      StoreFrontMatter(entries);
      r := if o.Pass? then Ok(entries) else Err(o.error);
    }

    /** Builds a form, its groups and its items from a specification; a missing required field fails
        the whole load and builds nothing. */
    static method LoadFromSpecification(spec: Loading.FormSpec, ids: Loading.DefaultIds) returns (r: Result<Form>)
      ensures r.Ok? <==> Loading.Resolve(spec, ids).Ok?
      ensures r.Err? ==> r.error == Loading.Resolve(spec, ids).error
      ensures r.Ok? ==> fresh(r.value) && fresh(r.value.Repr()) && r.value.Valid()
                        && r.value.Data() == Loading.Resolve(spec, ids).value
    {
      var resolved := Loading.Resolve(spec, ids);
      if resolved.Err? {
        return Err(resolved.error);
      }
      var d := resolved.value;
      var groups: seq<Group> := [];
      var gi := 0;
      while gi < |d.groups|
        invariant 0 <= gi <= |d.groups| && |groups| == gi
        invariant forall x :: x in Flatten(groups) ==> fresh(x) && allocated(x)
        invariant Distinct(Flatten(groups))
        invariant GroupDatas(groups) == d.groups[..gi]
      {
        groups := NewGroup(groups, d.groups[gi]);
        assert d.groups[..gi + 1] == d.groups[..gi] + [d.groups[gi]];
        gi := gi + 1;
      }
      assert d.groups[..gi] == d.groups;
      var f := new Form(d.name, groups, d.frontMatter, d.id);
      r := Ok(f);
    }
  }
}
