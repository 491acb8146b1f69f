# Block-tree content model of an invitation CMS

The system is an invitation CMS. An invitation page is stored as a JSON tree of typed blocks. Each block has:

- an `id`;
- a `type`;
- a `visible` flag;
- a `class`;
- a `properties` object.

A block of a composite type (group, row) holds a nested list under `properties.blocks`.

This project models the logic that works on that tree, plus the two form schemas next to it:

- **The tree mutator.** `updateBlockById` replaces every block whose id matches the update, at every depth. `updateBlock` applies it to the page's working copy of the tree. `useEditableBlocks` fails outside a provider.
- **The public read renderer.** It skips hidden blocks, dispatches on the type tag, and recurses through `GroupBlock` and `RowBlock`.
- **The older read renderer.** It has no visibility check, a different tag set, and a fixed "No block found" fallback.
- **The edit renderer.** It gives every block its editor, hidden or not. It recurses through `RowEditBlock`.
- **`EditBlockWrapper`.** This is the frame around every editor. Its one menu item sends the negated visibility flag.
- **The text and image editors.** Each one keeps a local copy of one property. Each change is sent to the mutator as the same block with only that property replaced.
- **The RSVP form.** This covers its schema, the conversion of a validated answer into the inserted row, and the form's reset after a successful insert.
- **The client form.** This covers its schema, its defaults, and the insert of validated data as it is.

## How the model is organised

| file | module | what it holds |
|---|---|---|
| `Wrappers.dfy` | `Wrappers` | `Option` and `Result` |
| `Blocks.dfy` | `BlockTree` | `Block`, `Json` and `Nested` (for `properties.blocks`), where `visible` is optional. It also holds the two record updates the editors build, paths into the tree, the path-based reference replacement `ReplaceAt`, and the id-uniqueness invariant `Unique`. |
| `EditableBlocksContext.dfy` | `EditableBlocksContext` | `UpdateBlockById`, the `EditableBlocksProvider` class and `UseEditableBlocks` |
| `PublicRenderer.dfy` | `PublicRenderer` | `blocks/BlockRenderer.tsx`, `GroupBlock.tsx` and `RowBlock.tsx` |
| `LegacyRenderer.dfy` | `LegacyRenderer` | `components/BlockRenderer.tsx` |
| `EditBlockRenderer.dfy` | `EditRenderer` | `EditBlockRenderer.tsx` and `RowEditBlock.tsx` |
| `EditBlockWrapper.dfy` | `EditWrapper` | `EditBlockWrapper.tsx` and the visibility update every editor sends |
| `TextEditBlock.dfy`, `ImageEditBlock.dfy` | same names | the two editors, as classes over the provider |
| `FormRules.dfy` | `FormRules` | the string rules the two schemas share |
| `RsvpEditBlock.dfy`, `ClientForm.dfy` | same names | the two forms |

### Modelling choices

- **Renderer output.** Each renderer is a function from the tree to a list of *slots*. A slot is a datatype: a `null` slot, a component of a given kind with the props it receives, a container with its children, or the fallback.
- **Visibility.** A block is visible when its `visible` field is exactly `true`. `IsVisible` models JavaScript truthiness: an absent or `false` flag counts as hidden.
- **The mutator and its reference.** The mutator mirrors the source's `map`. It is then proved equal to the path-based `ReplaceAt` whenever ids are unique (`UpdateMatchesReplaceAt`). This gives every editor's update its meaning: the block at that path, and nothing else, changes (`UpdateExistingBlock`).
- **Editors and React effects.** The editors' React effects run as synchronous steps of the editor's methods:
  - mounting is the constructor;
  - typing is `Type`;
  - a re-render with new props is `ReceiveProps`;
  - the menu click is `ClickVisibility`.

  React skips a state update to an equal value, and the model does the same.
- **Form errors.** The schemas report all failing fields together, as a set, because each field is checked independently.
- **The email check.** The library's email check is a parameter (`isEmail`).
- **The people count.** `people_count` is `None` until the field holds a number. `z.int()` accepts the safe integers only. The form as written fills the field with a string (see "## Findings").

## Model

| member | source | states |
|---|---|---|
| BlockTree.TextProperty | src/features/cms/components/edit-blocks/TextEditBlock.tsx:16 | `properties[key] \|\| ""` is non-empty exactly when the property is a non-empty string, and then it is that string |
| BlockTree.WithProperty | src/features/cms/components/edit-blocks/TextEditBlock.tsx:23 | `{...props, properties: {...props.properties, key: value}}` differs from the block only in that one property, which now holds the value |
| BlockTree.WithVisible | src/features/cms/components/edit-blocks/TextEditBlock.tsx:31 | `{...props, visible}` differs from the block only in `visible`, and the result is visible exactly when the flag is true |
| BlockTree.ReplaceAt | src/features/cms/context/EditableBlocksContext.tsx:21-35 | the reference replacement of one block at a path keeps the list's length at every level |
| BlockTree.ReplaceAtTarget | src/features/cms/context/EditableBlocksContext.tsx:22-23 | after the replacement the block at the path is the new block |
| BlockTree.ReplaceAtElsewhere | src/features/cms/context/EditableBlocksContext.tsx:34 | every block neither above nor below the path is unchanged |
| BlockTree.ReplaceAtAncestors | src/features/cms/context/EditableBlocksContext.tsx:25-33 | every block above the path keeps all its fields; only its nested list changes |
| BlockTree.NodeAtOccurs | src/features/cms/context/EditableBlocksContext.tsx:25-30 | the block found at a path lies in the subtree of the top-level block where the path starts |
| BlockTree.ReplaceAtSameIds | src/features/cms/context/EditableBlocksContext.tsx:22-33 | swapping a block for one with the same id and children leaves the ids of the subtree unchanged |
| BlockTree.ReplaceAtKeepsUnique | src/features/cms/context/EditableBlocksContext.tsx:22-33 | that swap keeps ids unique across the tree |
| EditableBlocksContext.UpdateBlockById | src/features/cms/context/EditableBlocksContext.tsx:20-36 | the result has one block per input block |
| EditableBlocksContext.UpdateOne | src/features/cms/context/EditableBlocksContext.tsx:21-35 | a block with the update's id becomes the update itself; any other block keeps every field and has a nested list exactly when it had one |
| EditableBlocksContext.UpdateNoMatch | src/features/cms/context/EditableBlocksContext.tsx:20-36 | if no block at any depth has the update's id, the tree comes back equal to the input |
| EditableBlocksContext.UpdateOneNoMatch | src/features/cms/context/EditableBlocksContext.tsx:21-35 | a block whose subtree lacks the id comes back equal |
| EditableBlocksContext.UpdateIdempotent | src/features/cms/context/EditableBlocksContext.tsx:20-36 | applying the same update twice gives the tree that applying it once gives |
| EditableBlocksContext.UpdateOneIdempotent | src/features/cms/context/EditableBlocksContext.tsx:21-35 | the same holds for one block and its subtree |
| EditableBlocksContext.UpdateAtPath | src/features/cms/context/EditableBlocksContext.tsx:21-35 | at any depth below non-matching ancestors, a matching block is replaced wholesale together with its children. Any other block keeps its fields and the length of its nested list. Every match is replaced, not only the first. |
| EditableBlocksContext.UpdateMatchesReplaceAt | src/features/cms/context/EditableBlocksContext.tsx:20-36 | with unique ids, the mutator equals the reference replacement at the path of the matching block |
| EditableBlocksContext.UpdateExistingBlock | src/features/cms/context/EditableBlocksContext.tsx:20-36 | an editor's update (same id and children as a block in the tree) replaces exactly that block. The ancestors keep their fields, every other block is untouched, and ids stay unique. |
| EditableBlocksContext.ExampleTopLevel | src/features/cms/context/EditableBlocksContext.tsx:21-24 | a top-level match is replaced by the update |
| EditableBlocksContext.ExampleNested | src/features/cms/context/EditableBlocksContext.tsx:25-33 | a match inside a group is replaced, and the group is rebuilt around it |
| EditableBlocksContext.EditableBlocksProvider.constructor | src/features/cms/context/EditableBlocksContext.tsx:43 | the provider starts with the tree it is handed |
| EditableBlocksContext.EditableBlocksProvider.SetEditableBlocks | src/features/cms/context/EditableBlocksContext.tsx:43 | `setEditableBlocks` replaces the whole tree |
| EditableBlocksContext.EditableBlocksProvider.UpdateBlock | src/features/cms/context/EditableBlocksContext.tsx:38-40 | the stored tree becomes the mutator applied to the previous stored tree, and nothing else changes |
| EditableBlocksContext.UseEditableBlocks | src/features/cms/context/EditableBlocksContext.tsx:49-55 | the hook succeeds with the provider exactly when there is one, and otherwise fails with the fixed message |
| PublicRenderer.NotFoundTextNamesType | src/features/cms/components/blocks/BlockRenderer.tsx:66-67 | the fallback text contains the type name at a fixed position, so the type is named |
| PublicRenderer.BlockRenderer | src/features/cms/components/blocks/BlockRenderer.tsx:33 | a missing list renders nothing; a present list gives one slot per block |
| PublicRenderer.RenderBlocks | src/features/cms/components/blocks/BlockRenderer.tsx:33-69 | one slot per block |
| PublicRenderer.RenderBlock | src/features/cms/components/blocks/BlockRenderer.tsx:34-67 | the slot is null exactly when the block is hidden, so a hidden block of unknown type is null too. The fallback appears exactly for a visible block outside the seven tags, and it names the type. Otherwise the component matches the tag and receives `{pageStyles, ...block}`. A container comes exactly from a visible group or row, and it carries the block's id and `pageStyles[class]`. |
| PublicRenderer.GroupBlock | src/features/cms/components/blocks/GroupBlock.tsx:4-8 | a container with the block's id and `pageStyles[class]`, around the same renderer applied to `properties.blocks` with the same `pageStyles` |
| PublicRenderer.RowBlock | src/features/cms/components/blocks/RowBlock.tsx:4-8 | the same for rows |
| PublicRenderer.RenderAtPath | src/features/cms/components/blocks/BlockRenderer.tsx:33-69 | there is a slot at a path exactly when the tree has a block there whose ancestors are all visible groups or rows. That slot is the block's own rendering with the top-level `pageStyles`. |
| PublicRenderer.RenderedBlocksAreVisible | src/features/cms/components/blocks/GroupBlock.tsx:6 | hidden blocks are dropped at every depth: every non-null slot comes from a block that is visible, along with all its ancestors |
| PublicRenderer.PropsAtEveryDepth | src/features/cms/components/blocks/RowBlock.tsx:5-6 | at any depth a component gets the top-level `pageStyles` and its own block, and a container gets its block's id and class |
| LegacyRenderer.LegacyBlockRenderer | src/features/cms/components/BlockRenderer.tsx:34-72 | a missing list renders nothing; otherwise there is one slot per entry, in order, each from its own entry |
| LegacyRenderer.LegacyRenderEntry | src/features/cms/components/BlockRenderer.tsx:35-70 | the fallback appears exactly for a null entry or a tag outside the eight (including schedule and location, excluding row). Otherwise the component matches the tag and gets `{pageStyles, ...block}`. |
| LegacyRenderer.LegacyIgnoresVisibility | src/features/cms/components/BlockRenderer.tsx:34-40 | there is no visibility check: changing `visible` never changes which component, or whether the fallback, is chosen |
| LegacyRenderer.LegacyRowNotRecognised | src/features/cms/components/BlockRenderer.tsx:40-70 | a row falls to the fallback, whose text is the fixed "No block found" |
| EditRenderer.EditNotFoundTextNamesType | src/features/cms/components/edit-blocks/EditBlockRenderer.tsx:58-59 | the diagnostic contains the type name at a fixed position |
| EditRenderer.EditBlockRenderer | src/features/cms/components/edit-blocks/EditBlockRenderer.tsx:28 | a missing list renders nothing; a present list gives one slot per block |
| EditRenderer.EditBlocks | src/features/cms/components/edit-blocks/EditBlockRenderer.tsx:28-61 | one slot per block |
| EditRenderer.EditBlock | src/features/cms/components/edit-blocks/EditBlockRenderer.tsx:29-59 | the diagnostic appears exactly for a tag outside the seven, and it names the type. Otherwise the editor matches the tag and gets the block's own fields with no `pageStyles`. A row gets the row editor. |
| EditRenderer.RowEditBlock | src/features/cms/components/edit-blocks/RowEditBlock.tsx:8-15 | the wrapper's visibility is the row's own `visible`, with the button offset, around the edit renderer applied to `properties.blocks`. The one update the row editor can send is the row with only `visible` changed: flipped, with the nested blocks as received. |
| EditRenderer.RowToggleChangesOnlyVisible | src/features/cms/components/edit-blocks/RowEditBlock.tsx:11 | sent to the mutator, the row editor's update flips that row's `visible` and changes nothing else in the tree, its nested blocks included; ids stay unique |
| EditRenderer.EditEntries | src/features/cms/components/edit-blocks/EditBlockRenderer.tsx:28-61 | on the page's list, a missing list renders nothing. Otherwise there is one slot per entry: a `null` entry gets the diagnostic with an empty type name, and a block gets its editor. |
| EditRenderer.EditEntry | src/features/cms/components/edit-blocks/EditBlockRenderer.tsx:29-59 | `{...null}` and `null?.type` reach the diagnostic with an empty type name; a block reaches its editor |
| EditRenderer.EditEntriesWithoutNulls | src/features/cms/components/edit-blocks/EditBlockRenderer.tsx:28-61 | on a list without `null` entries, the page's renderer gives the same slots as the renderer rows use |
| EditRenderer.NullEntryDiagnostic | src/features/cms/components/edit-blocks/EditBlockRenderer.tsx:59 | a `null` entry renders "Edit block  not found please contact us." |
| EditRenderer.EditIgnoresVisibility | src/features/cms/components/edit-blocks/EditBlockRenderer.tsx:28-33 | every block gets the same editor whatever its `visible` value |
| EditRenderer.EditAtPath | src/features/cms/components/edit-blocks/RowEditBlock.tsx:14 | in this model, where only the row editor renders nested blocks (GroupEditBlock.tsx is not part of this model), there is an editor slot at a path exactly when the tree has a block there below rows only, hidden or not. It is that block's own editor. |
| EditWrapper.EditBlockWrapper | src/features/cms/components/edit-blocks/EditBlockWrapper.tsx:20-46 | the children are dimmed and non-interactive exactly when the block is hidden. The button is inset exactly when `insetButton` is set. The label is Hide when the block is visible and Show when it is hidden. |
| EditWrapper.MenuItemValue | src/features/cms/components/edit-blocks/EditBlockWrapper.tsx:39 | the click sends the negation of `isVisible` |
| EditWrapper.MenuLabelMatchesAction | src/features/cms/components/edit-blocks/EditBlockWrapper.tsx:39-40 | the label reads Hide exactly when the click hides the block, and Show exactly when it shows it |
| EditWrapper.VisibilityUpdate | src/features/cms/components/edit-blocks/RowEditBlock.tsx:10-11 | the update differs from the block only in `visible`, and it flips visibility |
| EditWrapper.VisibilityUpdateTwice | src/features/cms/components/edit-blocks/EditBlockWrapper.tsx:39 | toggling twice restores a block that had `visible` set; an absent flag becomes `false` |
| EditWrapper.VisibilityEditChangesOnlyVisible | src/features/cms/components/edit-blocks/RowEditBlock.tsx:11 | sent to the mutator, the visibility update of the block at a path flips that block's `visible` and changes nothing else in the tree |
| TextEditBlock.ContentUpdate | src/features/cms/components/edit-blocks/TextEditBlock.tsx:22-24 | the update differs from the block only in `properties.content`, which now holds the local content |
| TextEditBlock.ContentEditChangesOnlyContent | src/features/cms/components/edit-blocks/TextEditBlock.tsx:23 | sent to the mutator, the content update of the block at a path changes that block's content and nothing else in the tree; ids stay unique |
| TextEditBlock.TextEditBlock.constructor | src/features/cms/components/edit-blocks/TextEditBlock.tsx:15-24 | on mount the local content is `properties.content \|\| ""` and one content update is sent |
| TextEditBlock.TextEditBlock.Type | src/features/cms/components/edit-blocks/TextEditBlock.tsx:22-46 | the local content becomes the textarea's value; one update is sent exactly when the value changed |
| TextEditBlock.TextEditBlock.ReceiveProps | src/features/cms/components/edit-blocks/TextEditBlock.tsx:18-24 | when the incoming `properties.content` changed, the local content resets to it (or ""). An update built from the new props is sent exactly when the local content changed. The echo of the editor's own update changes nothing. |
| TextEditBlock.TextEditBlock.ClickVisibility | src/features/cms/components/edit-blocks/TextEditBlock.tsx:31 | the tree receives the visibility update of the current props |
| TextEditBlock.TextEditBlock.TextareaDisabled | src/features/cms/components/edit-blocks/TextEditBlock.tsx:50 | the textarea is disabled exactly while the block is hidden |
| TextEditBlock.TextEditBlock.Wrapper | src/features/cms/components/edit-blocks/TextEditBlock.tsx:27-31 | the wrapper dims exactly a hidden block, with the button inset |
| ImageEditBlock.ImageUpdate | src/features/cms/components/edit-blocks/ImageEditBlock.tsx:22-24 | the update differs from the block only in `properties.image`, which now holds the local image |
| ImageEditBlock.ImageEditChangesOnlyImage | src/features/cms/components/edit-blocks/ImageEditBlock.tsx:23 | sent to the mutator, the image update of the block at a path changes that block's image and nothing else in the tree; ids stay unique |
| ImageEditBlock.ImageEditBlock.constructor | src/features/cms/components/edit-blocks/ImageEditBlock.tsx:15-24 | on mount the local image is `properties.image \|\| ""` and one image update is sent |
| ImageEditBlock.ImageEditBlock.Type | src/features/cms/components/edit-blocks/ImageEditBlock.tsx:22-40 | the local image becomes the input's value; one update is sent exactly when the value changed |
| ImageEditBlock.ImageEditBlock.ReceiveProps | src/features/cms/components/edit-blocks/ImageEditBlock.tsx:18-24 | when the incoming `properties.image` changed, the local image resets to it (or ""). An update is sent exactly when the local image changed. The echo of the editor's own update changes nothing. |
| ImageEditBlock.ImageEditBlock.ClickVisibility | src/features/cms/components/edit-blocks/ImageEditBlock.tsx:30 | the tree receives the visibility update of the current props |
| ImageEditBlock.ImageEditBlock.InputDisabled | src/features/cms/components/edit-blocks/ImageEditBlock.tsx:42 | the input is disabled exactly while the block is hidden |
| ImageEditBlock.ImageEditBlock.Preview | src/features/cms/components/edit-blocks/ImageEditBlock.tsx:44-51 | a preview appears exactly when the image string is non-empty, and it shows that string |
| ImageEditBlock.ImageEditBlock.Wrapper | src/features/cms/components/edit-blocks/ImageEditBlock.tsx:27-30 | the wrapper dims exactly a hidden block, with the button inset |
| FormRules.AllDigitsIff | src/features/cms/components/edit-blocks/RsvpEditBlock.tsx:28 | the left-to-right digit check accepts exactly the strings all of whose characters are ASCII digits |
| FormRules.PhoneRule | src/features/cms/components/edit-blocks/RsvpEditBlock.tsx:25-29 | a phone is accepted if and only if it is empty, or it has at least 10 characters and all of them are digits |
| RsvpEditBlock.ValidateRsvp | src/features/cms/components/edit-blocks/RsvpEditBlock.tsx:23-33 | the data passes unchanged exactly when all of these hold: the name is non-empty, the phone rule holds, `will_attend` is yes or no, and the count is a safe integer. Otherwise each field is reported exactly when its own rule fails, and the message is never reported. |
| RsvpEditBlock.NewRsvp | src/features/cms/components/edit-blocks/RsvpEditBlock.tsx:52-56 | name, phone and message are copied. `will_attend` becomes true exactly for "yes". The count is the given number, or 0 when there is none. |
| RsvpEditBlock.ValidatedRowKeepsCount | src/features/cms/components/edit-blocks/RsvpEditBlock.tsx:31-55 | for validated data the stored count is the entered count, and the stored `will_attend` is false exactly for "no" |
| RsvpEditBlock.DefaultsRejected | src/features/cms/components/edit-blocks/RsvpEditBlock.tsx:42-47 | the untouched form fails on the name and the count, and on nothing else |
| RsvpEditBlock.CountFieldValue | src/features/cms/components/edit-blocks/RsvpEditBlock.tsx:130-137 | the number input leaves the count undefined until typed, and a string afterwards |
| RsvpEditBlock.ValidateRsvpAsWritten | src/features/cms/components/edit-blocks/RsvpEditBlock.tsx:23-33 | the schema as written, applied to what the form submits: it passes exactly when every rule holds, with `z.int()` on the raw field value. Otherwise each field is reported exactly when its rule fails. |
| RsvpEditBlock.AsWrittenRejectsEverySubmission | src/features/cms/components/edit-blocks/RsvpEditBlock.tsx:31 | as written, every submission the form can produce is rejected on `people_count` |
| RsvpEditBlock.AsWrittenRejectsCompleteAnswer | src/features/cms/components/edit-blocks/RsvpEditBlock.tsx:31 | a complete answer with "2" typed as the count is rejected, on the count alone |
| RsvpEditBlock.CorrectedAcceptsCompleteAnswer | src/features/cms/components/edit-blocks/RsvpEditBlock.tsx:31-56 | with the count held as the typed number, the same answer passes and its row stores 2 |
| RsvpEditBlock.RsvpEditBlock.constructor | src/features/cms/components/edit-blocks/RsvpEditBlock.tsx:37-48 | the editor holds its props and the provider, the form starts at its defaults, and nothing is sent to the tree |
| RsvpEditBlock.RsvpEditBlock.ReceiveProps | src/features/cms/components/edit-blocks/RsvpEditBlock.tsx:37-48 | a re-render replaces the props and keeps the form's values |
| RsvpEditBlock.RsvpEditBlock.Change | src/features/cms/components/edit-blocks/RsvpEditBlock.tsx:80-156 | editing the fields sets the values and nothing else |
| RsvpEditBlock.RsvpEditBlock.Submit | src/features/cms/components/edit-blocks/RsvpEditBlock.tsx:50-73 | invalid values report their errors and change nothing. Valid values are converted by `newRsvp` and inserted. A successful insert resets the form to its defaults; a failed one keeps the values. The props do not change. |
| RsvpEditBlock.RsvpEditBlock.ClickVisibility | src/features/cms/components/edit-blocks/RsvpEditBlock.tsx:76-77 | the tree receives the visibility update of the current props, which differs from the block only in `visible` |
| RsvpEditBlock.RsvpEditBlock.Wrapper | src/features/cms/components/edit-blocks/RsvpEditBlock.tsx:76-77 | the wrapper dims exactly a hidden block, with the button offset |
| ClientForm.ValidateClient | src/features/clients/components/ClientForm.tsx:16-24 | the data passes unchanged exactly when the name is non-empty, the email is empty or well-formed, and the phone rule holds. Otherwise each field is reported exactly when its own rule fails. |
| ClientForm.DefaultsNeedOnlyName | src/features/clients/components/ClientForm.tsx:17-37 | the all-empty defaults fail on the name only, whatever the email check |
| ClientForm.NameAloneSuffices | src/features/clients/components/ClientForm.tsx:17-23 | the defaults with any non-empty name pass |
| ClientForm.ClientFormState.constructor | src/features/clients/components/ClientForm.tsx:28-38 | the form starts at its defaults, and records whether the optional `onSuccess` prop was given |
| ClientForm.ClientFormState.Change | src/features/clients/components/ClientForm.tsx:65-109 | editing the fields sets the values |
| ClientForm.ClientFormState.Submit | src/features/clients/components/ClientForm.tsx:39-60 | invalid values report their errors and change nothing. Valid values are inserted unchanged. A successful insert resets the form and calls `onSuccess` once when it was given; a failed one keeps the values. |

## Left out

- Block ids are strings. A block without an `id` would match an update without one, because `undefined === undefined` in JavaScript; this model does not capture that.
- `BlockTree.TextProperty`: a truthy non-string `properties.content` or `properties.image` (a number, an object) would reach the local state as it is. The model reads such a value as "".
- A block field named `pageStyles` would override the parent's table in `{pageStyles, ...block}`. The block shape has no such field, so the model does not capture the override.
- A block's `style` object is not modelled; it does not affect dispatch or updates.
- The public renderer reads `block.visible` on every entry, so a `null` entry would fail at run time. Its lists therefore hold blocks only.
- The renderers on their own: the edit renderer and the older renderer tolerate `null` entries in the list they are given, and the model gives both optional entries (`EditRenderer.EditEntries`, `LegacyRenderer.LegacyBlockRenderer`). These `null` slots describe the renderers in isolation. On the editing page the edit renderer's list is the provider's own tree, which the mutator maps over (see the next line).
- `EditableBlocksContext.UpdateBlockById`: a `null` entry reached by the map makes `block.id` throw a TypeError (EditableBlocksContext.tsx, line 22), and every text or image editor calls `updateBlock` on mount. So the provider's tree holds blocks only in this model (`seq<Block>`, nested lists included), and the throw is not modelled.
- Every block is taken to carry a `properties` object. A block without one would throw in `props.properties.content`, `props.properties.image` and `props.properties.blocks` (the text and image editors, `GroupBlock`, `RowBlock`, `RowEditBlock`); the stored shape always has it.
- The inside of the leaf components and of the group, image, itinerary, text, gallery and RSVP editors is not modelled; they appear as slots with their props. GroupEditBlock.tsx and the older renderer's composite components are not part of this model.
- `twMerge` with `className` and `childClassName` is not modelled; the wrapper's view holds the classes it chooses itself.
- The effect for `[props.properties.content]` is modelled as firing when the raw property value changes. A new object or array value that is equal in content would fire it in React, which compares by identity; the model does not capture that.
- The text and image editors read `props` from the latest render. The model keeps one editor per block. Remounts and React's batching of effects are not modelled.
- The texts of the field error messages are not modelled, only which fields fail.
- String lengths are counted in characters, not UTF-16 code units; this makes no difference for digit strings.
- `RsvpEditBlock.ValidateRsvp` takes the count field to hold the typed number, which is the schema's evident intent; what the form as written delivers is under "## Findings".
- `RsvpEditBlock.NewRsvp` does not set `event_id`, and neither does the source.
- All I/O is left out and appears only as the `insertSucceeds` parameter of `Submit`:
  - the database insert;
  - the toasts;
  - the invalidation of the `clients` query;
  - the asynchronous mutation lifecycle.
- The submit button's `isSubmitting` state and the loading and saving states of the page are not modelled.
- Saving the tree and the JSON round trip through the database are not part of this model.
- Floating-point numbers: JSON numbers are integers here.
- `ClientForm.ValidateClient`: the email format is the parameter `isEmail`, not the library's own check.

## Findings

| source | as written | input that shows it | evidently intended | confidence | as-written member | corrected member |
|---|---|---|---|---|---|---|
| src/features/cms/components/edit-blocks/RsvpEditBlock.tsx:31 | `people_count: z.int()` checks a field that `<Input type="number" {...field} />` (line 137) fills with the input's string value, and that has no default (lines 42-47). So the count is either undefined or a string, and `z.int()` rejects both: no RSVP can be submitted. | name "Ana", phone "", will_attend "yes", "2" typed as the count, message "": rejected on `people_count` | the count reaches the schema as a number (a coercing schema or a numeric field value), so a complete answer passes and its row stores the typed count | medium, not executed; it rests on the validation library not coercing strings, which is not part of this model | RsvpEditBlock.AsWrittenRejectsEverySubmission | RsvpEditBlock.CorrectedAcceptsCompleteAnswer |
