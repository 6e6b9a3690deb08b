/** Building the form tree from a specification: required fields must be present, the others take
    their declared defaults. Nothing else is checked at this point (an html_type is any string). */
module Loading {
  import opened Results
  import opened Model

  /** A specification entry as given; a key the specification leaves out is `None`. */
  datatype ItemSpec = ItemSpec(
    name: Option<string>,
    value: Option<string>,
    placeholder: Option<string>,
    htmlType: Option<string>,
    id: Option<string>,
    hooks: Option<seq<string>>)

  datatype GroupSpec = GroupSpec(name: Option<string>, items: Option<seq<ItemSpec>>)

  datatype FormSpec = FormSpec(
    name: Option<string>,
    groups: Option<seq<GroupSpec>>,
    frontMatter: Option<string>,
    id: Option<string>)

  /** The default ids: one value per class, drawn once when the class is defined and then shared by
      every instance that does not name its own id. */
  datatype DefaultIds = DefaultIds(itemId: string, formId: string)

  /** Runs `f` on every element; all succeed, or the result is the first failure. */
  function MapAll<S, T>(xs: seq<S>, f: S -> Result<T>): (r: Result<seq<T>>)
    ensures r.Ok? <==> forall i :: 0 <= i < |xs| ==> f(xs[i]).Ok?
    ensures r.Ok? ==> |r.value| == |xs| && forall i :: 0 <= i < |xs| ==> r.value[i] == f(xs[i]).value
    ensures r.Err? ==> exists i :: 0 <= i < |xs| && f(xs[i]) == Err(r.error)
    decreases |xs|
  {
    if xs == [] then Ok([])
    else match MapAll(xs[..|xs| - 1], f)
      case Err(e) => Err(e)
      case Ok(front) =>
        match f(xs[|xs| - 1])
        case Err(e) => Err(e)
        case Ok(y) => Ok(front + [y])
  }

  function ResolveItem(s: ItemSpec, ids: DefaultIds): Result<ItemData> {
    if s.name.None? then Err(ValidationError)
    else Ok(ItemData(s.name.value, s.value.GetOr(""), s.placeholder.GetOr(""), s.htmlType.GetOr("text"),
                     s.id.GetOr(ids.itemId), s.hooks.GetOr([])))
  }

  function ResolveGroup(s: GroupSpec, ids: DefaultIds): Result<GroupData> {
    if s.name.None? || s.items.None? then Err(ValidationError)
    else match MapAll(s.items.value, (i: ItemSpec) => ResolveItem(i, ids))
      case Err(e) => Err(e)
      case Ok(items) => Ok(GroupData(s.name.value, items))
  }

  /** The field values a form built from `s` holds; a front matter the specification supplies is kept
      as the string it is, and an absent one is an empty metadata mapping. */
  function Resolve(s: FormSpec, ids: DefaultIds): Result<FormData> {
    if s.name.None? || s.groups.None? then Err(ValidationError)
    else match MapAll(s.groups.value, (g: GroupSpec) => ResolveGroup(g, ids))
      case Err(e) => Err(e)
      case Ok(groups) =>
        var fm := match s.frontMatter case Some(t) => Text(t) case None => Metadata(map[]);
        Ok(FormData(s.name.value, groups, fm, s.id.GetOr(ids.formId)))
  }

  /** Every required field of a group is present, its items' included. */
  predicate GroupComplete(g: GroupSpec) {
    g.name.Some? && g.items.Some? && forall j :: 0 <= j < |g.items.value| ==> g.items.value[j].name.Some?
  }

  /** Every required field is present, at every level. */
  predicate Complete(s: FormSpec) {
    s.name.Some? && s.groups.Some? && forall i :: 0 <= i < |s.groups.value| ==> GroupComplete(s.groups.value[i])
  }

  /** A group loads exactly when its required fields are present; otherwise validation fails. */
  lemma ResolveGroupOkIff(g: GroupSpec, ids: DefaultIds)
    ensures ResolveGroup(g, ids).Ok? <==> GroupComplete(g)
    ensures ResolveGroup(g, ids).Err? ==> ResolveGroup(g, ids).error == ValidationError
  {
    if g.name.Some? && g.items.Some? && ResolveGroup(g, ids).Err? {
      var j :| 0 <= j < |g.items.value| && ResolveItem(g.items.value[j], ids) == Err(ResolveGroup(g, ids).error);
    }
  }

  /** Loading fails exactly when a required field is missing. */
  lemma ResolveOkIff(s: FormSpec, ids: DefaultIds)
    ensures Resolve(s, ids).Ok? <==> Complete(s)
    ensures Resolve(s, ids).Err? ==> Resolve(s, ids).error == ValidationError
  {
    if s.name.Some? && s.groups.Some? {
      forall i | 0 <= i < |s.groups.value|
        ensures ResolveGroup(s.groups.value[i], ids).Ok? <==> GroupComplete(s.groups.value[i])
        ensures ResolveGroup(s.groups.value[i], ids).Err? ==> ResolveGroup(s.groups.value[i], ids).error == ValidationError
      {
        ResolveGroupOkIff(s.groups.value[i], ids);
      }
      if Resolve(s, ids).Err? {
        var i :| 0 <= i < |s.groups.value| && ResolveGroup(s.groups.value[i], ids) == Err(Resolve(s, ids).error);
      }
    }
  }

  /** A loaded form keeps every field its specification gives and fills in the defaults for the rest:
      an empty value, an empty placeholder, the "text" type, no hooks and the shared default id. */
  lemma ResolveKeepsFields(s: FormSpec, ids: DefaultIds, i: nat, j: nat)
    requires Resolve(s, ids).Ok?
    requires s.groups.Some? && i < |s.groups.value|
    requires s.groups.value[i].items.Some? && j < |s.groups.value[i].items.value|
    ensures var d, g, x := Resolve(s, ids).value, s.groups.value[i], s.groups.value[i].items.value[j];
            && s.name == Some(d.name)
            && d.id == (if s.id.Some? then s.id.value else ids.formId)
            && d.frontMatter == (if s.frontMatter.Some? then Text(s.frontMatter.value) else Metadata(map[]))
            && |d.groups| == |s.groups.value|
            && g.name == Some(d.groups[i].name)
            && |d.groups[i].items| == |g.items.value|
            && x.name == Some(d.groups[i].items[j].name)
            && d.groups[i].items[j].value == (if x.value.Some? then x.value.value else "")
            && d.groups[i].items[j].placeholder == (if x.placeholder.Some? then x.placeholder.value else "")
            && d.groups[i].items[j].htmlType == (if x.htmlType.Some? then x.htmlType.value else "text")
            && d.groups[i].items[j].id == (if x.id.Some? then x.id.value else ids.itemId)
            && d.groups[i].items[j].hooks == (if x.hooks.Some? then x.hooks.value else [])
  {
  }

  /** Any two items loaded without an id of their own, in any groups, carry the same id. */
  lemma DefaultItemIdShared(s: FormSpec, ids: DefaultIds, i1: nat, j1: nat, i2: nat, j2: nat)
    requires Resolve(s, ids).Ok?
    requires s.groups.Some? && i1 < |s.groups.value| && i2 < |s.groups.value|
    requires s.groups.value[i1].items.Some? && j1 < |s.groups.value[i1].items.value|
    requires s.groups.value[i2].items.Some? && j2 < |s.groups.value[i2].items.value|
    requires s.groups.value[i1].items.value[j1].id.None? && s.groups.value[i2].items.value[j2].id.None?
    ensures var d := Resolve(s, ids).value;
            d.groups[i1].items[j1].id == d.groups[i2].items[j2].id
  {
    ResolveKeepsFields(s, ids, i1, j1);
    ResolveKeepsFields(s, ids, i2, j2);
  }

  /** Two forms loaded without an id of their own carry the same id. */
  lemma DefaultFormIdShared(s1: FormSpec, s2: FormSpec, ids: DefaultIds)
    requires Resolve(s1, ids).Ok? && Resolve(s2, ids).Ok?
    requires s1.id.None? && s2.id.None?
    ensures Resolve(s1, ids).value.id == Resolve(s2, ids).value.id
  {
  }

  // ---- round trip -----------------------------------------------------------------------------

  function ItemSpecOf(x: ItemData): ItemSpec {
    ItemSpec(Some(x.name), Some(x.value), Some(x.placeholder), Some(x.htmlType), Some(x.id), Some(x.hooks))
  }

  function GroupSpecOf(g: GroupData): GroupSpec {
    GroupSpec(Some(g.name), Some(seq(|g.items|, j requires 0 <= j < |g.items| => ItemSpecOf(g.items[j]))))
  }

  /** The specification that spells out every field of `d`. */
  function SpecOf(d: FormData): FormSpec {
    FormSpec(Some(d.name), Some(seq(|d.groups|, i requires 0 <= i < |d.groups| => GroupSpecOf(d.groups[i]))),
             if d.frontMatter.Text? then Some(d.frontMatter.text) else None, Some(d.id))
  }

  /** Loading the specification that spells out a form's fields gives that form back, whatever the
      default ids, provided its front matter is one a specification can express. */
  lemma ResolveRoundTrip(d: FormData, ids: DefaultIds)
    requires d.frontMatter.Metadata? ==> d.frontMatter.entries == map[]
    ensures Resolve(SpecOf(d), ids) == Ok(d)
  {
    var s := SpecOf(d);
    var rg := MapAll(s.groups.value, (g: GroupSpec) => ResolveGroup(g, ids));
    forall i | 0 <= i < |d.groups|
      ensures ResolveGroup(s.groups.value[i], ids) == Ok(d.groups[i])
    {
      var g := d.groups[i];
      var ri := MapAll(GroupSpecOf(g).items.value, (x: ItemSpec) => ResolveItem(x, ids));
      assert ri.Ok? && ri.value == g.items;
    }
    assert rg.Ok? && rg.value == d.groups;
  }
}
