# form-builder core, modelled in Dafny

This project models `forms.py` of the form builder. A form is a tree: a form has a name, an id, a
front-matter store and groups; a group has a name and items; an item has a name, a value, a
placeholder, an html_type, an id and a list of hook names. The model covers what the module does
with that tree:

- **Loading.** A specification dictionary becomes the tree. Required fields must be present. Every
  other field takes its declared default, and item and form ids default to one value per class that
  every instance shares.
- **Rendering.** A form becomes HTML: a heading, then a form element with one wrapper per group and
  one label plus control per item. The control is chosen through `RENDER_FUNCTIONS` by html_type.
- **Hooks.** Each hook name is looked up and applied to an item's value in list order. The only
  hook the module defines is `slugify`.
- **Exporting front matter.** The form name and every non-control item go into the front-matter
  mapping, under the item's lower-cased name and after its hooks have run. This rewrites item values
  in place and mutates the stored mapping, which is then returned.

## Layout

- `results.dfy`: module `Results`. Holds the errors the code can raise, plus `Option`, `Result` and `Outcome`.
- `slug.dfy`: module `Slug`. Holds `slugify` and the ASCII lower-casing it and the export use.
- `hooks.dfy`: module `Hooks`. Holds the hook registry and `Apply`, which runs a hook list on a value.
- `model.dfy`: module `Model`.
  - `HTML_TYPE` and `CONTROL_TYPES` as `HtmlTypes` and `ControlTypes`.
  - The value types `ItemData`, `GroupData` and `FormData`.
  - The front-matter store: `Metadata(map)`, or `Text(string)` when a specification supplied a plain string.
- `seqs.dfy`: module `Seqs`. Holds the associativity of concatenation, which the proofs share.
- `render.dfy`: module `Render`.
  - `RENDER_FUNCTIONS` as `RenderFunctions`.
  - The item, group and form markup as pure functions (`ItemHtml`, `GroupHtml`, `FormHtml`).
- `frontmatter.dfy`: module `FrontMatterExport`.
  - The export as a pure specification: `ExportAll` folds from the left, and `ExportFrom` is the
    same walk seen from a loop.
  - `SerializeFrontMatter` is the whole form-level operation.
- `loading.dfy`: module `Loading`.
  - Specifications with optional fields.
  - `Resolve`, the field values a loaded form holds.
- `forms.dfy`: module `Forms`, the objects.
  - `FormItem` is a class whose `value` is rewritten in place.
  - `Group` is a datatype over items.
  - `Form` is a class whose front-matter store is replaced by the export.
  - Each method is proved against the pure functions above.
- `example.dfy`: module `Example`. The blog-post specification at the end of `forms.py`, loaded,
  rendered and exported.

Python exceptions become `Err` values:
- a `KeyError` on an unknown html_type gives `UnknownHtmlType`;
- a `KeyError` on an unknown hook name gives `UnknownHook`;
- a validation error for a missing required field gives `ValidationError`;
- item assignment into a front matter that is a plain string gives `FrontMatterNotMapping`.

Where an exception interrupts a mutation, the model keeps what the code had already done. A hook
list that fails part-way leaves the value that the earlier hooks produced. An export that fails
part-way rewrites the values of the items before the failing one, and the store keeps `form_name`
and the writes made before the failing item.

An item's id appears twice in its markup: in the label's `for` attribute and in the control's `id`
attribute. Its name also appears twice, as the label text and as the control's `name` attribute.
`Render.ItemHtml` writes both in the same places.

## Model

| member | source | states |
|---|---|---|
| Slug.Slugify | forms.py:34-35 | The definition: spaces replaced by `-`, then ASCII lower-casing. Its properties are the `Slug` lemmas below. |
| Hooks.Registry | forms.py:55-57 | The names a hook lookup can find: only `slugify`, bound to `Slug.Slugify`. |
| Hooks.Apply | forms.py:55-57 | The definition of a hook run: each name looked up and applied in list order, stopping at the first unknown name with the value reached so far. Its properties are the `Hooks` lemmas below. |
| Model.HtmlTypes | forms.py:7 | The supported html_types: text, number, email, submit and textarea. |
| Model.ControlTypes | forms.py:8 | The html_types that are controls only: submit. |
| Render.RenderFunctions | forms.py:10-16 | One renderer per html_type, each writing the control markup of lines 11-15. `RenderFunctionsCoverHtmlTypes` proves its keys are `HtmlTypes`. |
| Render.ItemHtml | forms.py:50-53 | The definition of an item's markup: its label, then the control its html_type selects, or `UnknownHtmlType`. Its properties are `ItemHtmlDefinedIff` and the per-type lemmas below. |
| Render.GroupHtml | forms.py:92-95 | The definition of a group's markup: its wrapper around its items' markup, or the first item's error. |
| Render.FormHtml | forms.py:89-99 | The definition of a form's markup: heading and form element around its groups' markup, or the first error. Its properties are the `FormHtml` lemmas below, and `Forms.Form.SerializeAsHtml` is proved equal to it. |
| FrontMatterExport.ExportAll | forms.py:111-118 | The export of a sequence of items as a left fold of `ExportStep`, returning one item state per input item. |
| FrontMatterExport.ExportStep | forms.py:113-118 | One item's export: nothing after a failure, a control passes unchanged, any other item runs its hooks and writes its lower-cased name. One item state is added. |
| FrontMatterExport.SerializeFrontMatter | forms.py:108-120 | The form-level export: a plain-string store fails, otherwise `form_name` is written and the flattened items are exported. Its properties are `FrontMatterKeys` and `FrontMatterTwice`. |
| Loading.ResolveItem | forms.py:43-48 | The definition of item loading: a missing name is a validation error, and the other fields take their defaults. Its properties are `ResolveKeepsFields` and `DefaultItemIdShared`. |
| Loading.ResolveGroup | forms.py:60-69 | The definition of group loading: name and items are required, and every item is loaded. Its property is `ResolveGroupOkIff`. |
| Loading.Resolve | forms.py:77-87 | The definition of form loading: name and groups are required, every group is loaded, and front matter and id take their defaults. Its properties are `ResolveOkIff`, `ResolveKeepsFields` and `ResolveRoundTrip`. |
| Slug.SlugifyPointwise | forms.py:34-35 | `slugify` keeps the length. A space becomes `-`, an ASCII capital becomes its small letter, and every other character is kept, position by position. |
| Slug.SlugifyNormalises | forms.py:34-35 | The output of `slugify` contains no space and no ASCII capital. |
| Slug.SlugifyFixedPoint | forms.py:34-35 | `slugify` returns its input unchanged exactly when the input has no space and no ASCII capital. |
| Slug.SlugifyIdempotent | forms.py:34-35 | Applying `slugify` twice gives the same result as applying it once. |
| Slug.SlugifyExample | forms.py:142-144 | The example's slug value `POST-EXAMPLE` becomes `post-example`. |
| Slug.SlugifySpacedExample | forms.py:34-35 | `POST EXAMPLE` also becomes `post-example`: the space is hyphenated. |
| Hooks.ApplyIsLeftFold | forms.py:55-57 | Hooks run in list order. The first hook sees the original value, and each later hook sees the previous hook's result. An unknown first name fails at once. |
| Hooks.ApplySucceedsIff | forms.py:55-57 | A hook run succeeds exactly when every name in the list is registered. |
| Hooks.ApplyStopsAtFailure | forms.py:55-57 | Once a prefix of the list has failed, the hooks after it change neither the value nor the error. |
| Hooks.ApplyFailsAtFirstUnknown | forms.py:55-57 | A run fails naming the first unknown hook. The value is what the registered hooks before that name produced. |
| Hooks.ApplyOutcomeIgnoresValue | forms.py:55-57 | Whether a hook run fails does not depend on the value. |
| Hooks.RegistryApplyValue | forms.py:55-57 | With the module's registry, a run yields the slug of the value if the first hook is registered, and the unchanged value otherwise. |
| Hooks.RegistryApplyIdempotent | forms.py:55-57 | With the module's registry, running the hooks again on their own output changes neither the value nor the outcome. |
| Hooks.SlugHookExample | forms.py:141-144 | The example's hook list `["slugify"]` turns `POST-EXAMPLE` into `post-example`. |
| Render.RenderFunctionsCoverHtmlTypes | forms.py:7-16 | The renderer table has exactly the keys of `HTML_TYPE`. |
| Render.ItemHtmlDefinedIff | forms.py:50-53 | An item renders exactly when its html_type is in `HTML_TYPE`. Otherwise rendering fails naming that type. |
| Render.InputItemHtml | forms.py:11-13 | Text, number and email items render their label followed by an input element that differs only in its `type` attribute. |
| Render.SubmitItemHtml | forms.py:14 | A submit item renders its label followed by a button whose body is the value. The placeholder has no effect. |
| Render.TextareaItemHtml | forms.py:15 | A textarea item renders its label followed by a textarea. The placeholder is an attribute and the value is the element body. |
| Render.ItemHtmlIgnoresHooks | forms.py:50-53 | Rendering never depends on an item's hooks. |
| Render.ConcatAllOkIff | forms.py:91-95 | Concatenating renderings succeeds exactly when every element renders. |
| Render.ConcatAllErrorFromElement | forms.py:91-95 | A failed concatenation reports the failure of one of its elements. |
| Render.ConcatAllStopsAtFailure | forms.py:91-95 | Once a prefix has failed to render, the later elements change nothing. |
| Render.ConcatAllStep | forms.py:91-95 | After a prefix that renders, adding one element appends its markup, or its failure becomes the result of the whole. |
| Render.ConcatAllAppend | forms.py:91-95 | Rendering two sequences one after the other concatenates their renderings. |
| Render.FormHtmlOkIff | forms.py:89-99 | A form renders exactly when every item in every group has an html_type from `HTML_TYPE`. |
| Render.FormHtmlErrorNamesItem | forms.py:89-99 | A form that fails to render names the html_type of one of its items that is missing from `HTML_TYPE`. |
| Render.FormHtmlAppendGroup | forms.py:89-99 | Appending a group to a form inserts that group's wrapper just before `</form>`. |
| Render.FormHtmlStep | forms.py:91-95 | The serializer's group step: adding a group's opening tag, its items' markup and `</div>` extends the heading plus wrappers by that group. |
| Render.FormHtmlStopsAt | forms.py:91-94 | If every group before group `i` renders and the items of group `i` fail, the whole form fails with that error. |
| Render.FormHtmlDone | forms.py:97-99 | Once every group is appended, adding `</form>` gives the form's markup. |
| Render.FormHtmlNoGroups | forms.py:89-99 | A form without groups renders as the heading followed by an empty form element. |
| Render.FormHtmlIgnoresFrontMatter | forms.py:89-99 | Rendering never depends on the front matter. |
| FrontMatterExport.ExportStepShift | forms.py:113-118 | The keys one item writes, and the outcome it reaches, do not depend on the items visited before it. |
| FrontMatterExport.ExportFromAt | forms.py:112-118 | Continuing the export at item `i` means taking that item's step and continuing after it. |
| FrontMatterExport.ExportFromIsExportAll | forms.py:111-118 | Continuing a finished export over more items gives the same result as exporting the longer sequence in one go. |
| FrontMatterExport.ExportFromFailed | forms.py:116 | After an unknown hook, the remaining items are neither written nor changed. |
| FrontMatterExport.ExportFromShift | forms.py:111-118 | The items already visited do not influence what the rest of the export writes or reaches. |
| FrontMatterExport.ExportFromAppend | forms.py:111-118 | Exporting over `a + b` means exporting over `a` and then continuing over `b`. |
| FrontMatterExport.ExportFromChunk | forms.py:111-118 | A group's items can be exported on their own, and the export continues after them. |
| FrontMatterExport.ExportSucceedsIff | forms.py:111-118 | An export succeeds exactly when every non-control item's hooks are all registered. |
| FrontMatterExport.ExportStopsAtFailure | forms.py:116 | Once a prefix has failed, the later items are neither written nor changed. |
| FrontMatterExport.ExportItems | forms.py:113-116 | After a successful export, controls are unchanged and every other item has had its hooks applied to its value. |
| FrontMatterExport.ExportOverlay | forms.py:118 | After a successful export, the store is the starting store overridden by the items' writes, with later writes winning. |
| FrontMatterExport.OverlayStep | forms.py:118 | Exporting one more item overrides the store with that item's write. |
| FrontMatterExport.ExportKeys | forms.py:110-118 | After a successful export, the keys are the starting keys plus the lower-cased names of the non-control items. Unwritten keys keep their values. |
| FrontMatterExport.WrittenKeysSnoc | forms.py:113-118 | One more item adds its lower-cased name to the written keys, unless it is a control. |
| FrontMatterExport.KeysStep | forms.py:118 | One more item adds at most its own key and leaves the other keys unchanged. |
| FrontMatterExport.ExportLastWriterWins | forms.py:118 | After an export in which every hook was found, a non-control item's key holds that item's new value, unless a later non-control item has the same lower-cased name. (After an unknown hook, the failing item and every later item write no key.) |
| FrontMatterExport.ReexportWithRegistry | forms.py:111-118 | With the module's registry, after a successful export, exporting the already-exported items again reproduces them and writes what the first export wrote. |
| FrontMatterExport.ReexportStep | forms.py:113-118 | The step of the re-export: an exported item, when its hooks are all registered or it is a control, exports to itself and writes the same key and value. |
| FrontMatterExport.FrontMatterKeys | forms.py:108-120 | The export returns the stored mapping itself. It fails exactly when the store is a plain string or a non-control item names an unknown hook. On success, the keys are the original keys, `form_name` and the written keys; `form_name` holds the form name unless an item overwrites it; every non-control item, and no control, has had its hooks run. |
| FrontMatterExport.FrontMatterTwice | forms.py:108-120 | With the module's registry, if the first export succeeds, exporting a second time from the state it left gives the same result and the same state. |
| FrontMatterExport.OverlayAgain | forms.py:110 | The map step of `FrontMatterTwice`: setting a key to the value it already holds, then re-applying the same writes, changes nothing. It is a general identity on maps, used for the rewrite of `form_name` at the second export. |
| Loading.MapAll | forms.py:82-87 | A list validates exactly when every element does. The validated list is the elements' results in order, and a failure is the failure of one element. |
| Loading.ResolveGroupOkIff | forms.py:60-69 | A group loads exactly when its name, its items and every item's name are present. Otherwise it is a validation error. |
| Loading.ResolveOkIff | forms.py:82-87 | A specification loads exactly when every required field is present at every level. Otherwise it is a validation error. |
| Loading.ResolveKeepsFields | forms.py:43-48 | A loaded form keeps every field the specification gives. The other fields take their defaults: value `""`, placeholder `""`, html_type `"text"`, no hooks, and the shared default id. |
| Loading.DefaultItemIdShared | forms.py:47 | Any two items loaded without an id of their own carry the same id. |
| Loading.DefaultFormIdShared | forms.py:80 | Two forms loaded without an id of their own carry the same id. |
| Loading.ResolveRoundTrip | forms.py:82-87 | Loading the specification that spells out every field of a form gives that form back, whatever the default ids, provided the form's front matter is a string or the empty mapping. A specification can supply only a string, so a store that holds entries does not round-trip. |
| Forms.FormItem.constructor | forms.py:38-48 | A new item holds the given field values. |
| Forms.FormItem.RunHooks | forms.py:55-57 | Rewrites the item's value to the result of running its hooks in order. On an unknown name it stops with that error and keeps the value the earlier hooks produced. |
| Forms.FormItem.ExportTo | forms.py:113-118 | One iteration of the export loop. A control writes nothing and is not changed. Any other item runs its hooks, and if they all ran, it maps its lower-cased name to its new value. |
| Forms.ExportItem | forms.py:112-118 | One item's turn in the inner loop. It changes only that item, and the export continued after it equals the export continued before it. |
| Forms.ExportGroupItems | forms.py:112-118 | The inner loop over a group's items. It returns the store, the outcome and item states that the specification's export of those items gives. |
| Forms.ExportItemsDone | forms.py:112-118 | When the inner loop stops, the items hold the values the export left in them. |
| Forms.ExportGroupAt | forms.py:111-118 | One group's turn in the outer loop. The export continues through its items, which join those already exported. |
| Forms.ExportGroupsDone | forms.py:111-118 | When the outer loop stops, all items hold the values the export left in them. |
| Forms.ExportGroups | forms.py:111-118 | The nested loop over all groups and items. It returns the store, the outcome and item states that the specification's export of the flattened items gives. |
| Forms.FlatItemsOfGroups | forms.py:111-112 | The item values visited group by group and item by item are the flattened values of the tree. |
| Forms.NewItems | forms.py:87 | Loading builds one fresh item per specification entry, in order, with no item shared. |
| Forms.NewGroup | forms.py:87 | Loading builds one more group of fresh items after those already built. |
| Forms.Form.constructor | forms.py:72-80 | A new form holds the given name, groups, front matter and id. |
| Forms.Form.ItemStatesAreFlatItems | forms.py:111-112 | The objects' item values are the tree's items flattened in group order, then item order. |
| Forms.Form.SerializeAsHtml | forms.py:89-99 | Returns the form's markup exactly as `Render.FormHtml` defines it, or that function's error. Nothing is modified. |
| Forms.Form.StoreFrontMatter | forms.py:109-110 | Installs the mapping in the store and leaves every item unchanged. |
| Forms.Form.SerializeAsFrontMatter | forms.py:108-120 | Returns what `FrontMatterExport.SerializeFrontMatter` returns. The store and the items then hold what that function says, so the properties proved about it (`FrontMatterKeys`, `FrontMatterTwice`) hold of the objects. |
| Forms.Form.LoadFromSpecification | forms.py:82-87 | Succeeds exactly when `Loading.Resolve` does, with the same error otherwise. On success, the form and its items are freshly built, no item appears twice, and the tree holds the resolved values. |
| Example.PostSpecLoads | forms.py:123-155 | The blog-post specification loads into its three groups with the default ids, empty placeholders and empty metadata. |
| Example.GroupLoads | forms.py:126-153 | A group whose entries each load to the matching item loads to the group of those items. |
| Example.PostItems | forms.py:123-155 | The example's items, flattened, are the three groups' items in order. |
| Example.PostNames | forms.py:129-141 | The example's field names lower-case to `title`, `body` and `slug`. |
| Example.PostExportSteps | forms.py:111-118 | Exporting the example's four items writes `title`, `body` and `slug` (the last after slugify) and skips the submit button. |
| Example.PostExport | forms.py:108-120 | The example's export returns exactly `form_name`, `title`, `body` and `slug`, with slug `post-example` and no `publish` key. |
| Example.PostHtml | forms.py:89-99 | The example form's whole markup: Title and Slug become text inputs, Body the only textarea and Publish the only button, each after its label, in their groups' wrappers. |
| Example.ExportPost | forms.py:108-120 | Loading the example specification into objects, as forms.py:157 does, and exporting their front matter returns exactly the mapping of `PostExport`. |

## Left out

- `save_to_file` and `HTML_TEMPLATE` (forms.py:18-32, 101-106): they write a file. The markup they
  wrap is `SerializeAsHtml`.
- The driver at forms.py:157-164, which prints, keys forms by id and saves a file. The loading of
  the example specification is modelled in `Example.ExportPost`, and the markup the driver prints
  at forms.py:162 is stated in full by `Example.PostHtml`.
- The `frontmatter` library. The store is a `map<string, string>`, the empty `frontmatter.loads("")`
  is the empty map, and `.metadata` is the map itself. The model does not capture whether forms
  share one default store object; each form holds its own.
- Key order of the returned metadata. Python's dict keeps insertion order and `map<string, string>`
  does not; nothing in the module iterates the mapping.
- `uuid.uuid4()`. The two default ids are parameters (`Loading.DefaultIds`) drawn once and shared
  by every item or form that does not name its own.
- pydantic. Only the presence of required fields is checked; type coercion and type errors are not
  modelled. A front matter given in a specification is kept as the string it is (`Text`).
- Unicode case mapping. `str.lower()` is modelled as ASCII lower-casing, in `slugify` and in the
  export's keys.
- `globals()[hook]`. Hooks are looked up in an explicit registry that holds only `slugify`. A name
  that resolves to some other global in Python is an unknown hook here.
- HTML escaping. The source does none, and neither does the model.
