/** Export of a form's item values into its front-matter metadata. */
module FrontMatterExport {
  import opened Results
  import opened Model
  import Slug
  import Hooks

  const FormNameKey: string := "form_name"

  /** The state an export reaches: the metadata store, every item (hooks run on those reached), and
      whether it got to the end. */
  datatype Export = Export(store: map<string, string>, items: seq<ItemData>, outcome: Outcome)

  /** Visits the items in order. A control-only item is skipped. Any other item has its hooks run on
      its value, and then its lower-cased name is mapped to the new value. An unknown hook stops the
      export: the failing item keeps what its earlier hooks did, the items after it are untouched. */
  function ExportAll(reg: map<string, Hooks.Transform>, store: map<string, string>, xs: seq<ItemData>): (e: Export)
    ensures |e.items| == |xs|
    decreases |xs|
  {
    if xs == [] then Export(store, [], Pass)
    else ExportStep(reg, ExportAll(reg, store, xs[..|xs| - 1]), xs[|xs| - 1])
  }

  /** One item of the export, after the items `e` describes. */
  function ExportStep(reg: map<string, Hooks.Transform>, e: Export, x: ItemData): (r: Export)
    ensures |r.items| == |e.items| + 1
  {
    if e.outcome.Fail? then Export(e.store, e.items + [x], e.outcome)
    else if x.htmlType in ControlTypes then Export(e.store, e.items + [x], Pass)
    else
      var h := Hooks.Apply(reg, x.hooks, x.value);
      var y := x.(value := h.value);
      if h.outcome.Pass? then Export(e.store[Slug.Lower(x.name) := h.value], e.items + [y], Pass)
      else Export(e.store, e.items + [y], h.outcome)
  }

  /** A step writes the same keys and reaches the same outcome whatever items came before it. */
  lemma ExportStepShift(reg: map<string, Hooks.Transform>, e: Export, ys: seq<ItemData>, x: ItemData)
    ensures var r := ExportStep(reg, e, x);
            ExportStep(reg, Export(e.store, ys + e.items, e.outcome), x) == Export(r.store, ys + r.items, r.outcome)
  {
    var y := x.(value := Hooks.Apply(reg, x.hooks, x.value).value);
    assert ys + e.items + [x] == ys + (e.items + [x]);
    assert ys + e.items + [y] == ys + (e.items + [y]);
  }

  /** The export continued from the state `e` over `xs`, front to back: the loop's view of
      `ExportAll`, which the lemma below equates with it. */
  function ExportFrom(reg: map<string, Hooks.Transform>, e: Export, xs: seq<ItemData>): (r: Export)
    ensures |r.items| == |e.items| + |xs|
    decreases |xs|
  {
    if xs == [] then e else ExportFrom(reg, ExportStep(reg, e, xs[0]), xs[1..])
  }

  /** Continuing an export at item `i` is taking that one item's step and continuing after it. */
  lemma ExportFromAt(reg: map<string, Hooks.Transform>, store: map<string, string>, ys: seq<ItemData>, xs: seq<ItemData>, i: nat)
    requires i < |xs|
    ensures var one := ExportStep(reg, Export(store, [], Pass), xs[i]);
            ExportFrom(reg, Export(store, ys, Pass), xs[i..]) == ExportFrom(reg, Export(one.store, ys + one.items, one.outcome), xs[i + 1..])
  {
    assert xs[i..][0] == xs[i] && xs[i..][1..] == xs[i + 1..];
    ExportStepShift(reg, Export(store, [], Pass), ys, xs[i]);
    assert ys + [] == ys;
  }

  /** Continuing a finished export over more items is exporting the longer sequence. */
  lemma {:induction false} ExportFromIsExportAll(reg: map<string, Hooks.Transform>, m: map<string, string>, a: seq<ItemData>, b: seq<ItemData>)
    ensures ExportFrom(reg, ExportAll(reg, m, a), b) == ExportAll(reg, m, a + b)
    decreases |b|
  {
    if b == [] {
      assert a + b == a;
    } else {
      var a' := a + [b[0]];
      assert a'[..|a'| - 1] == a;
      assert a' + b[1..] == a + b;
      ExportFromIsExportAll(reg, m, a', b[1..]);
    }
  }

  /** Once an export has failed, continuing it only carries the remaining items along unchanged. */
  lemma {:induction false} ExportFromFailed(reg: map<string, Hooks.Transform>, e: Export, xs: seq<ItemData>)
    requires e.outcome.Fail?
    ensures ExportFrom(reg, e, xs) == Export(e.store, e.items + xs, e.outcome)
    decreases |xs|
  {
    if xs == [] {
      assert e.items + xs == e.items;
    } else {
      ExportFromFailed(reg, ExportStep(reg, e, xs[0]), xs[1..]);
      assert e.items + [xs[0]] + xs[1..] == e.items + xs;
    }
  }

  /** The items already visited do not influence what the rest of an export writes or reaches. */
  lemma {:induction false} ExportFromShift(reg: map<string, Hooks.Transform>, e: Export, ys: seq<ItemData>, xs: seq<ItemData>)
    ensures var r := ExportFrom(reg, e, xs);
            ExportFrom(reg, Export(e.store, ys + e.items, e.outcome), xs) == Export(r.store, ys + r.items, r.outcome)
    decreases |xs|
  {
    if xs != [] {
      ExportStepShift(reg, e, ys, xs[0]);
      ExportFromShift(reg, ExportStep(reg, e, xs[0]), ys, xs[1..]);
    }
  }

  /** Continuing over `a + b` is continuing over `a` and then over `b`. */
  lemma {:induction false} ExportFromAppend(reg: map<string, Hooks.Transform>, e: Export, a: seq<ItemData>, b: seq<ItemData>)
    ensures ExportFrom(reg, e, a + b) == ExportFrom(reg, ExportFrom(reg, e, a), b)
    decreases |a|
  {
    if a == [] {
      assert a + b == b;
    } else {
      assert (a + b)[0] == a[0] && (a + b)[1..] == a[1..] + b;
      ExportFromAppend(reg, ExportStep(reg, e, a[0]), a[1..], b);
    }
  }

  /** Continuing an export over `a + b` is exporting `a` on its own and continuing after it over `b`. */
  lemma ExportFromChunk(reg: map<string, Hooks.Transform>, store: map<string, string>, ys: seq<ItemData>, a: seq<ItemData>, b: seq<ItemData>)
    ensures var e := ExportFrom(reg, Export(store, [], Pass), a);
            ExportFrom(reg, Export(store, ys, Pass), a + b) == ExportFrom(reg, Export(e.store, ys + e.items, e.outcome), b)
  {
    ExportFromAppend(reg, Export(store, ys, Pass), a, b);
    assert ys + [] == ys;
    ExportFromShift(reg, Export(store, [], Pass), ys, a);
  }

  /** What one finished export leaves in an item. */
  function Exported(reg: map<string, Hooks.Transform>, x: ItemData): ItemData {
    if x.htmlType in ControlTypes then x else x.(value := Hooks.Apply(reg, x.hooks, x.value).value)
  }

  predicate HooksRegistered(reg: map<string, Hooks.Transform>, x: ItemData) {
    forall i :: 0 <= i < |x.hooks| ==> x.hooks[i] in reg
  }

  /** The keys an export writes: the lower-cased names of its data items. */
  function WrittenKeys(xs: seq<ItemData>): set<string> {
    set j | 0 <= j < |xs| && xs[j].htmlType !in ControlTypes :: Slug.Lower(xs[j].name)
  }

  /** The key/value writes of already exported items, later ones overriding earlier ones. */
  function Writes(ys: seq<ItemData>): map<string, string>
    decreases |ys|
  {
    if ys == [] then map[]
    else
      var y := ys[|ys| - 1];
      if y.htmlType in ControlTypes then Writes(ys[..|ys| - 1])
      else Writes(ys[..|ys| - 1])[Slug.Lower(y.name) := y.value]
  }

  /** An export reaches the end exactly when every data item's hooks are all registered. */
  lemma {:induction false} ExportSucceedsIff(reg: map<string, Hooks.Transform>, m: map<string, string>, xs: seq<ItemData>)
    ensures ExportAll(reg, m, xs).outcome == Pass <==>
            forall j :: 0 <= j < |xs| && xs[j].htmlType !in ControlTypes ==> HooksRegistered(reg, xs[j])
    decreases |xs|
  {
    if xs != [] {
      var front, x := xs[..|xs| - 1], xs[|xs| - 1];
      ExportSucceedsIff(reg, m, front);
      assert forall j :: 0 <= j < |front| ==> front[j] == xs[j];
      Hooks.ApplySucceedsIff(reg, x.hooks, x.value);
    }
  }

  /** Once an export has failed on a prefix, the later items are neither exported nor changed. */
  lemma {:induction false} ExportStopsAtFailure(reg: map<string, Hooks.Transform>, m: map<string, string>, xs: seq<ItemData>, j: nat)
    requires j <= |xs|
    requires ExportAll(reg, m, xs[..j]).outcome.Fail?
    ensures var e := ExportAll(reg, m, xs[..j]);
            ExportAll(reg, m, xs) == Export(e.store, e.items + xs[j..], e.outcome)
    decreases |xs| - j
  {
    var e := ExportAll(reg, m, xs[..j]);
    if j < |xs| {
      var front := xs[..|xs| - 1];
      assert front[..j] == xs[..j];
      ExportStopsAtFailure(reg, m, front, j);
      assert e.items + front[j..] + [xs[|xs| - 1]] == e.items + xs[j..];
    } else {
      assert xs[..j] == xs;
      assert e.items + xs[j..] == e.items;
    }
  }

  /** A finished export leaves control-only items as they were and every other item with its hooks
      applied to its value. */
  lemma {:induction false} ExportItems(reg: map<string, Hooks.Transform>, m: map<string, string>, xs: seq<ItemData>)
    requires ExportAll(reg, m, xs).outcome == Pass
    ensures forall j :: 0 <= j < |xs| ==> ExportAll(reg, m, xs).items[j] == Exported(reg, xs[j])
    decreases |xs|
  {
    if xs != [] {
      var front := xs[..|xs| - 1];
      ExportItems(reg, m, front);
    }
  }

  /** A finished export leaves the store it started from overridden by the writes of its items. */
  lemma {:induction false} ExportOverlay(reg: map<string, Hooks.Transform>, m: map<string, string>, xs: seq<ItemData>)
    requires ExportAll(reg, m, xs).outcome == Pass
    ensures ExportAll(reg, m, xs).store == m + Writes(ExportAll(reg, m, xs).items)
    decreases |xs|
  {
    if xs != [] {
      var front := xs[..|xs| - 1];
      var e := ExportAll(reg, m, front);
      assert e.outcome == Pass;
      ExportOverlay(reg, m, front);
      OverlayStep(reg, m, e, xs[|xs| - 1]);
    }
  }

  /** The step of the overlay: writing one more item is overriding the store with its write. */
  lemma OverlayStep(reg: map<string, Hooks.Transform>, m: map<string, string>, e: Export, x: ItemData)
    requires e.outcome == Pass && e.store == m + Writes(e.items)
    ensures ExportStep(reg, e, x).outcome == Pass ==> ExportStep(reg, e, x).store == m + Writes(ExportStep(reg, e, x).items)
  {
    var ys := ExportStep(reg, e, x).items;
    assert ys[..|ys| - 1] == e.items;
    if x.htmlType !in ControlTypes {
      var k, v := Slug.Lower(x.name), Hooks.Apply(reg, x.hooks, x.value).value;
      assert ys[|ys| - 1].name == x.name && ys[|ys| - 1].value == v;
      assert (m + Writes(e.items))[k := v] == m + Writes(e.items)[k := v];
    }
  }

  /** The keys after a finished export are the original keys and the written keys; keys that are not
      written keep their values. */
  lemma {:induction false} ExportKeys(reg: map<string, Hooks.Transform>, m: map<string, string>, xs: seq<ItemData>)
    requires ExportAll(reg, m, xs).outcome == Pass
    ensures ExportAll(reg, m, xs).store.Keys == m.Keys + WrittenKeys(xs)
    ensures forall k :: k in m && k !in WrittenKeys(xs) ==> ExportAll(reg, m, xs).store[k] == m[k]
    decreases |xs|
  {
    if xs != [] {
      var front := xs[..|xs| - 1];
      var e := ExportAll(reg, m, front);
      assert e.outcome == Pass;
      ExportKeys(reg, m, front);
      WrittenKeysSnoc(xs);
      KeysStep(reg, m, e, xs[|xs| - 1], WrittenKeys(front));
    }
  }

  /** The keys written by one more item: its lower-cased name, unless it is a control. */
  lemma WrittenKeysSnoc(xs: seq<ItemData>)
    requires xs != []
    ensures var x := xs[|xs| - 1];
            WrittenKeys(xs) == WrittenKeys(xs[..|xs| - 1]) + (if x.htmlType in ControlTypes then {} else {Slug.Lower(x.name)})
  {
    var front := xs[..|xs| - 1];
    assert forall j :: 0 <= j < |front| ==> front[j] == xs[j];
  }

  /** The step of the key accounting: one more item adds at most its own key and leaves the others. */
  lemma KeysStep(reg: map<string, Hooks.Transform>, m: map<string, string>, e: Export, x: ItemData, written: set<string>)
    requires e.outcome == Pass && e.store.Keys == m.Keys + written
    requires forall k :: k in m && k !in written ==> e.store[k] == m[k]
    ensures var r, w := ExportStep(reg, e, x), written + (if x.htmlType in ControlTypes then {} else {Slug.Lower(x.name)});
            r.outcome == Pass ==> r.store.Keys == m.Keys + w && forall k :: k in m && k !in w ==> r.store[k] == m[k]
  {
  }

  /** After a finished export, the key of a data item holds that item's new value unless a later data
      item has a name with the same lower-cased form. */
  lemma {:induction false} ExportLastWriterWins(reg: map<string, Hooks.Transform>, m: map<string, string>, xs: seq<ItemData>, j: nat)
    requires ExportAll(reg, m, xs).outcome == Pass
    requires j < |xs| && xs[j].htmlType !in ControlTypes
    requires forall l :: j < l < |xs| && xs[l].htmlType !in ControlTypes ==> Slug.Lower(xs[l].name) != Slug.Lower(xs[j].name)
    ensures Slug.Lower(xs[j].name) in ExportAll(reg, m, xs).store
    ensures ExportAll(reg, m, xs).store[Slug.Lower(xs[j].name)] == ExportAll(reg, m, xs).items[j].value
    decreases |xs|
  {
    var front := xs[..|xs| - 1];
    if j < |front| {
      ExportLastWriterWins(reg, m, front, j);
    }
  }

  /** Exporting items a second time, with this module's registry, reproduces them and writes what the
      first export wrote. */
  lemma {:induction false} ReexportWithRegistry(m: map<string, string>, xs: seq<ItemData>, m2: map<string, string>)
    requires ExportAll(Hooks.Registry, m, xs).outcome == Pass
    ensures var ys := ExportAll(Hooks.Registry, m, xs).items;
            ExportAll(Hooks.Registry, m2, ys) == Export(m2 + Writes(ys), ys, Pass)
    decreases |xs|
  {
    if xs != [] {
      var front, x := xs[..|xs| - 1], xs[|xs| - 1];
      var e := ExportAll(Hooks.Registry, m, front);
      var ys := ExportAll(Hooks.Registry, m, xs).items;
      assert e.outcome == Pass;
      ReexportWithRegistry(m, front, m2);
      assert ys[..|ys| - 1] == e.items;
      ReexportStep(ExportAll(Hooks.Registry, m2, e.items), x, m2, e.items);
    }
  }

  /** The step of the re-export: an exported item exports to itself, writing what it wrote before. */
  lemma ReexportStep(prev: Export, x: ItemData, m2: map<string, string>, fys: seq<ItemData>)
    requires prev == Export(m2 + Writes(fys), fys, Pass)
    requires x.htmlType !in ControlTypes ==> Hooks.Apply(Hooks.Registry, x.hooks, x.value).outcome == Pass
    ensures var y := Exported(Hooks.Registry, x);
            ExportStep(Hooks.Registry, prev, y) == Export(m2 + Writes(fys + [y]), fys + [y], Pass)
  {
    var y := Exported(Hooks.Registry, x);
    var ys := fys + [y];
    assert ys[..|ys| - 1] == fys;
    if x.htmlType !in ControlTypes {
      var h := Hooks.Apply(Hooks.Registry, x.hooks, x.value);
      Hooks.RegistryApplyIdempotent(x.hooks, x.value);
      assert Hooks.Apply(Hooks.Registry, y.hooks, y.value) == h;
      var k := Slug.Lower(y.name);
      assert (m2 + Writes(fys))[k := h.value] == m2 + Writes(fys)[k := y.value];
    }
  }

  // ---- the form-level operation ---------------------------------------------------------------

  /** What exporting a form's front matter returns and leaves behind. */
  datatype FrontMatterRun = FrontMatterRun(result: Result<map<string, string>>, frontMatter: FrontMatter, items: seq<ItemData>)

  /** Writes the form name into the stored front matter, exports the items into it in group and item
      order, and returns the stored metadata itself. A store that is a plain string cannot take the
      first write, so nothing happens. */
  function SerializeFrontMatter(reg: map<string, Hooks.Transform>, name: string, fm: FrontMatter, xs: seq<ItemData>): FrontMatterRun {
    match fm
    case Text(_) => FrontMatterRun(Err(FrontMatterNotMapping), fm, xs)
    case Metadata(m) =>
      var e := ExportAll(reg, m[FormNameKey := name], xs);
      FrontMatterRun(if e.outcome.Pass? then Ok(e.store) else Err(e.outcome.error), Metadata(e.store), e.items)
  }

  /** The front-matter export returns the stored metadata itself; it fails exactly when the store is a
      plain string or a data item names an unregistered hook; on success its keys are the original
      keys, "form_name" and the written keys, "form_name" holds the form name unless an item writes
      it, and every data item (and no control-only item) has had its hooks run. */
  lemma FrontMatterKeys(reg: map<string, Hooks.Transform>, name: string, fm: FrontMatter, xs: seq<ItemData>)
    ensures var run := SerializeFrontMatter(reg, name, fm, xs);
            && (fm.Text? ==> run == FrontMatterRun(Err(FrontMatterNotMapping), fm, xs))
            && (fm.Metadata? ==> run.frontMatter.Metadata?
                                 && (run.result.Ok? ==> run.frontMatter.entries == run.result.value))
            && (run.result.Ok? <==>
                fm.Metadata? && forall j :: 0 <= j < |xs| && xs[j].htmlType !in ControlTypes ==> HooksRegistered(reg, xs[j]))
            && (run.result.Ok? ==>
                && run.result.value.Keys == fm.entries.Keys + {FormNameKey} + WrittenKeys(xs)
                && (FormNameKey !in WrittenKeys(xs) ==> run.result.value[FormNameKey] == name)
                && |run.items| == |xs|
                && forall j :: 0 <= j < |xs| ==> run.items[j] == Exported(reg, xs[j]))
  {
    if fm.Metadata? {
      var m := fm.entries[FormNameKey := name];
      ExportSucceedsIff(reg, m, xs);
      if ExportAll(reg, m, xs).outcome == Pass {
        ExportKeys(reg, m, xs);
        ExportItems(reg, m, xs);
      }
    }
  }

  /** With this module's registry, exporting the front matter a second time, from the state the first
      export left, gives the same result and the same state. */
  lemma FrontMatterTwice(name: string, fm: FrontMatter, xs: seq<ItemData>)
    requires SerializeFrontMatter(Hooks.Registry, name, fm, xs).result.Ok?
    ensures var run := SerializeFrontMatter(Hooks.Registry, name, fm, xs);
            SerializeFrontMatter(Hooks.Registry, name, run.frontMatter, run.items) == run
  {
    var m := fm.entries[FormNameKey := name];
    var e := ExportAll(Hooks.Registry, m, xs);
    ExportOverlay(Hooks.Registry, m, xs);
    ReexportWithRegistry(m, xs, e.store[FormNameKey := name]);
    OverlayAgain(m, Writes(e.items), FormNameKey, name);
  }

  /** Rewriting a key to the value it starts with, then overriding with the same writes again,
      changes nothing. */
  lemma OverlayAgain(m: map<string, string>, w: map<string, string>, k: string, v: string)
    requires k in m && m[k] == v
    ensures (m + w)[k := v] + w == m + w
  {
  }
}
