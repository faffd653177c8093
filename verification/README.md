# Figma Tokens core, modelled in Dafny

This project models the logic core of the Figma Tokens plugin:

- **The `tokenState` store** (`TokenStore.dfy`, `Tokens.dfy`). Token sets are kept by name in
  insertion order, together with the active set, the list of used sets and the staging area for
  imported styles. The store's reducers are modelled:
  - per token: create, duplicate, edit, delete, and delete by name prefix;
  - per set: add, delete, rename, reorder, and toggle "used";
  - the reference-rename sweep `updateAliases`;
  - the style-import classifier `setTokensFromStyles`;
  - the `editToken` effect, which triggers the sweep.
- **The component property extractor** (`ComponentProperties.dfy`). Annotated document nodes are
  folded into a tree of component parts. Variant styles are then deduplicated against their own
  part's base styles. This includes the helpers `gatherTokens`, `findTextStyles` and
  `stripTokenPrefix`.
- **The shadow editor** (`BoxShadow.dfy`): adding, removing, editing and drag-moving shadow layers.
- **The token edit form** (`EditTokenForm.dfy`): the typed name is normalised, the form chooses
  between creating and editing, it computes the `oldName` that triggers a rename, and a uniqueness
  error blocks submission.

The shared files model the JavaScript semantics that the core relies on:

- `Records.dfy`: an object as an insertion-ordered association list. Assigning to an existing
  property replaces it in place; a new property is appended; `delete` removes the property.
- `Strings.dfy`: `split`, `join`, `trim` and `startsWith`.
- `Seqs.dfy`: `filter` and de-duplication as done by `new Set`.
- `Wrappers.dfy`: `Option`, and the `Outcome` of a reducer.

### How the source's behaviour is represented

- **Failing reducers.** A reducer that indexes a missing or `undefined` set throws a TypeError. In
  the model it returns `Fail(MissingParentSet(name))` and leaves the state unchanged.
- **Undefined set values.** A set value can be `undefined`: `renameTokenSet` of a missing name,
  or `setTokenSetOrder` naming an unknown set, writes one. The model's `SetValue` has a case for
  it.
- **Undefined active set.** `activeTokenSet` becomes `undefined` when the last set is deleted while
  it was active. The model uses `Option<string>` for it, and an `undefined` key reads the property
  `"undefined"`.

Object property order is modelled where the source depends on it: for the sets in `tokens` and
for plugin-data keys. Style maps, token options and the part tree use maps, because nothing in the
core depends on their order. lodash's `isEqual` is order-insensitive on objects.

One behaviour of the code is followed although it is evidently not what was meant:
- `findTextStyles` (src/plugin/pullComponentProperties.ts:69) is evidently meant to skip children
  whose `componentState` carries a `role`.
- It reads `.role` off the raw plugin-data string, which is always `undefined`, so it never skips.
  `ComponentProperties.TextStyles` never skips either.
- `ComponentProperties.NestedComponentTextIsCollected` shows that a nested component's text colour
  reaches the outer component.

## Model

| member | source | states |
|---|---|---|
| Tokens.IndexOfName | src/app/store/models/tokenState.tsx:201 | `findIndex` by name: the first index carrying the name, or -1 exactly when no token carries it |
| Tokens.Created | src/app/store/models/tokenState.tsx:176-198 | `createToken` on a set: unchanged when the name is taken, otherwise `{name, value, ...options}` appended; its shape is proved in `Tokens.CreatedShape` |
| Tokens.CreatedShape | src/app/store/models/tokenState.tsx:176-198 | `createToken` on a set: a taken name leaves it unchanged; otherwise exactly one token `{name, value, ...options}` is appended after all the old ones |
| Tokens.Duplicated | src/app/store/models/tokenState.tsx:199-221 | `duplicateToken` on a set: a copy of the first token of that name, renamed `name-copy`, spliced in right after it; unchanged without a match; its shape is proved in `Tokens.DuplicatedShape` |
| Tokens.DuplicatedShape | src/app/store/models/tokenState.tsx:199-221 | `duplicateToken`: without a match nothing changes. With one, the renamed copy (`name-copy`) sits right after the first match, the length grows by one, and removing the copy gives back the original set, so every other token keeps its relative order |
| Tokens.DuplicateTwiceRepeatsName | src/app/store/models/tokenState.tsx:203-208 | the copy's name is not checked for uniqueness: duplicating the same token twice yields two tokens named `name-copy` |
| Tokens.Edited | src/app/store/models/tokenState.tsx:265-283 | `editToken` on a set: the first token of the searched name overwritten in place by `{...old, name, value, ...options}`; unchanged without a match; its shape is proved in `Tokens.EditedShape` |
| Tokens.EditedShape | src/app/store/models/tokenState.tsx:265-283 | `editToken` on a set: the length and every other token are unchanged. The found token stays at its index with the new name and value, or with the options' name and value when they override them. Its other fields survive unless overridden, every option other than `name` and `value` is spread onto it, and it has no other field |
| Tokens.WithoutName | src/app/store/models/tokenState.tsx:289 | `deleteToken` on a set: the `filter` on a differing name |
| Tokens.WithoutPrefix | src/app/store/models/tokenState.tsx:300 | `deleteTokenGroup` on a set: the `filter` on names not starting with `path` |
| Tokens.WithoutNameMembership | src/app/store/models/tokenState.tsx:284-294 | `deleteToken` keeps exactly the tokens whose name differs from `path` |
| Tokens.WithoutPrefixMembership | src/app/store/models/tokenState.tsx:295-305 | `deleteTokenGroup` keeps exactly the tokens whose name does not start with `path` |
| Tokens.DeletionsKeepOrder | src/app/store/models/tokenState.tsx:284-305 | both deletions distribute over concatenation, so the survivors keep their order |
| Tokens.GroupPrefixIsLiteral | src/app/store/models/tokenState.tsx:300 | the prefix match is literal: deleting `button.` removes `button.bg` and `button.label.color` but keeps `buttonGroup.bg` |
| Tokens.RewriteValue | src/app/store/models/tokenState.tsx:309-334 | the sweep keeps the kind of value; a string becomes `replaceReferences` of the old one; an object keeps its property names and every property becomes `replaceReferences` of the old one; a layer list keeps its length and each layer's property names, and every property of every layer becomes `replaceReferences` of the old one |
| Tokens.RewriteSet | src/app/store/models/tokenState.tsx:309-335 | `values.map(...)` of `updateAliases`: every token with its value rewritten; proved in `Tokens.RewriteSetShape` |
| Tokens.RewriteSetShape | src/app/store/models/tokenState.tsx:306-347 | per set, the sweep keeps the token count, order, names and non-value fields, and every value is rewritten: a string, every object property and every property of every list item becomes `replaceReferences` of the old one |
| Tokens.RewriteSetIdentity | src/app/store/models/tokenState.tsx:306-347 | when `replaceReferences` changes no string, the sweep changes no token |
| Tokens.Judge | src/app/store/models/tokenState.tsx:231-253 | an update entry decided for a received token carries that token |
| Tokens.Classify | src/app/store/models/tokenState.tsx:223-264 | the staging area after the received tokens in order, each recorded with its verdict; characterised by `Tokens.ClassifyNew`, `Tokens.ClassifyUpdated` and `Tokens.ClassifyUnchanged` |
| Tokens.ClassifyNew | src/app/store/models/tokenState.tsx:223-264 | a received token is in `newTokens` iff it was received and the active set has no token of that name |
| Tokens.ClassifyUpdated | src/app/store/models/tokenState.tsx:223-264 | `updatedTokens` holds exactly the updates decided for received tokens: an existing token with another value gives `oldValue`; the same value with another description gives `oldDescription` |
| Tokens.ClassifyUnchanged | src/app/store/models/tokenState.tsx:232-238 | a token that exists with an equal value and an equal description is in neither list. An undefined new description counts as equal to an old `''` |
| Tokens.Push | src/app/store/models/tokenState.tsx:231-253 | one received token pushed to `newTokens`, to `updatedTokens`, or to neither, as the classification prescribes |
| Tokens.ClassifyGroup | src/app/store/models/tokenState.tsx:230-254 | the inner loop over one received group extends the staging area by that group's tokens, in order |
| Tokens.ClassifyStyles | src/app/store/models/tokenState.tsx:229-255 | the outer loop yields the classification of all received tokens, group after group |
| TokenStore.WithSetFrame | src/app/store/models/tokenState.tsx:191-197 | writing an existing set back by spread keeps the set names and their order, and changes no other set |
| TokenStore.CreateTakenIsNoOp | src/app/store/models/tokenState.tsx:176-198 | `createToken` with a taken name leaves the whole group unchanged |
| TokenStore.NotFoundIsNoOp | src/app/store/models/tokenState.tsx:199-221 | `duplicateToken`, and likewise `editToken`, leave the whole group unchanged when no token of the searched name exists |
| TokenStore.Toggled | src/app/store/models/tokenState.tsx:81-83 | `usedTokenSet` after the toggle: the filter when the set is used, else the de-duplicated list with the set appended; proved in `TokenStore.ToggleFlips` and `TokenStore.ToggleOnAppends` |
| TokenStore.ToggleFlips | src/app/store/models/tokenState.tsx:78-85 | toggling flips whether the set is used, and no other set's status |
| TokenStore.ToggleOnAppends | src/app/store/models/tokenState.tsx:78-85 | turning a set on appends it at the end of a repeat-free list, which stays repeat-free |
| TokenStore.AddedSet | src/app/store/models/tokenState.tsx:92-104 | `tokens` after `addTokenSet`: unchanged for an existing name, else an empty set appended |
| TokenStore.AddedSetShape | src/app/store/models/tokenState.tsx:92-104 | adding an existing set changes nothing; a new set is appended, empty, after all others |
| TokenStore.ActiveAfterDelete | src/app/store/models/tokenState.tsx:111 | the active pointer after `deleteTokenSet`: the first remaining name, or `undefined`, when the deleted set was active; proved in `TokenStore.DeleteSetKeepsActiveValid` |
| TokenStore.DeleteSetKeepsActiveValid | src/app/store/models/tokenState.tsx:105-113 | after deleting a set the names stay distinct. A defined active pointer names a remaining set. It is undefined only if it was already undefined, or if the active set was the last one |
| TokenStore.Renamed | src/app/store/models/tokenState.tsx:115-117 | `tokens` after `renameTokenSet`: the new name assigned the old value, then the old name deleted; proved in `TokenStore.RenamedMoves` |
| TokenStore.ActiveAfterRename | src/app/store/models/tokenState.tsx:121 | the active pointer follows the renamed set |
| TokenStore.RenamedMoves | src/app/store/models/tokenState.tsx:114-123 | rename: the value moves under the new name and the old name is gone. No other set changes and names stay distinct. A new name goes last in the order |
| TokenStore.RenameToSelfDeletes | src/app/store/models/tokenState.tsx:114-123 | renaming a set to its own name deletes it, while the active pointer still names it |
| TokenStore.RenameKeepsActiveValid | src/app/store/models/tokenState.tsx:121 | with two different names, the active pointer follows the rename and names an existing set |
| TokenStore.Reordered | src/app/store/models/tokenState.tsx:130-134 | the group built by one `Object.assign` per listed name, in order; characterised by `TokenStore.ReorderedKeys` and `TokenStore.ReorderedGet` |
| TokenStore.ReorderedKeys | src/app/store/models/tokenState.tsx:130-139 | the reordered group's names are exactly the listed names, each once, in order of first mention |
| TokenStore.ReorderedGet | src/app/store/models/tokenState.tsx:130-139 | each listed name is bound to its old value (`undefined` if unknown); unlisted sets are dropped |
| TokenStore.ReorderSameOrder | src/app/store/models/tokenState.tsx:130-139 | listing the sets in their present order rebuilds the same group |
| TokenStore.RewriteGroup | src/app/store/models/tokenState.tsx:307-341 | the `reduce` over `Object.entries(tokens)`: every set swept in order, or failure at an `undefined` set; proved in `TokenStore.RewriteGroupDefined` and `TokenStore.RewriteGroupShape` |
| TokenStore.RewriteGroupDefined | src/app/store/models/tokenState.tsx:307-341 | the sweep over all sets succeeds iff every set value is defined |
| TokenStore.RewriteGroupShape | src/app/store/models/tokenState.tsx:306-347 | a successful sweep keeps every set name in its place and rewrites each set with the per-set sweep |
| TokenStore.RewriteAliases | src/app/store/models/tokenState.tsx:307-341 | the reduce loop computes the sweep and stops at the first undefined set |
| TokenStore.TriggersRename | src/app/store/models/tokenState.tsx:357 | the `editToken` effect dispatches `updateAliases` exactly when `oldName` is truthy and differs from `name` |
| TokenStore.EditLookupMatchesRename | src/app/store/models/tokenState.tsx:356-359 | the token `editToken` overwrites, found by `oldName` if truthy, is the one whose references the effect renames: the effect fires exactly when the lookup used `oldName` and it differs from `name` |
| TokenStore.TokenStore.constructor | src/app/store/models/tokenState.tsx:57-70 | initial state: one empty set `global`, active and used, nothing imported |
| TokenStore.TokenStore.ToggleUsedTokenSet | src/app/store/models/tokenState.tsx:78-85 | `usedTokenSet` becomes the toggled list; nothing else changes |
| TokenStore.TokenStore.AddTokenSet | src/app/store/models/tokenState.tsx:92-104 | `tokens` becomes the group with the set added; nothing else changes |
| TokenStore.TokenStore.DeleteTokenSet | src/app/store/models/tokenState.tsx:105-113 | the set is deleted and the active pointer moves to the first remaining set if it was on it; names stay distinct |
| TokenStore.TokenStore.RenameTokenSet | src/app/store/models/tokenState.tsx:114-123 | `tokens[new] = tokens[old]`, then `delete tokens[old]`; the active pointer follows; names stay distinct |
| TokenStore.TokenStore.SetTokenSetOrder | src/app/store/models/tokenState.tsx:130-139 | the loop of `Object.assign` calls builds the reordered group; names stay distinct |
| TokenStore.TokenStore.CreateToken | src/app/store/models/tokenState.tsx:176-198 | fails on a missing or undefined parent with the state unchanged; otherwise the parent set becomes the created set in place |
| TokenStore.TokenStore.DuplicateToken | src/app/store/models/tokenState.tsx:199-221 | fails on a missing parent; otherwise the parent set becomes the duplicated set in place |
| TokenStore.TokenStore.EditToken | src/app/store/models/tokenState.tsx:265-283 | fails on a missing parent; otherwise the token found by `oldName`, or else by `name`, is overwritten in place |
| TokenStore.TokenStore.DeleteToken | src/app/store/models/tokenState.tsx:284-294 | fails on a missing parent; otherwise the parent set loses every token named `path` |
| TokenStore.TokenStore.DeleteTokenGroup | src/app/store/models/tokenState.tsx:295-305 | fails on a missing parent; otherwise the parent set loses every token whose name starts with `path` |
| TokenStore.TokenStore.UpdateAliases | src/app/store/models/tokenState.tsx:306-347 | fails with the state unchanged if a set is undefined; otherwise `tokens` becomes the swept group |
| TokenStore.TokenStore.SetTokensFromStyles | src/app/store/models/tokenState.tsx:223-264 | fails only when the active set is missing and some token is received. Otherwise `importedTokens` becomes the classification of all received tokens against the active set. `tokens` is untouched |
| TokenStore.TokenStore.DispatchEditToken | src/app/store/models/tokenState.tsx:356-359 | the reducer, then the sweep from `oldName` to `name` exactly when `oldName` is truthy and differs from `name` |
| ComponentProperties.StripOne | src/plugin/pullComponentProperties.ts:96-98 | one iteration: a leading `key.` is cut off, anything else is kept |
| ComponentProperties.StripPrefixes | src/plugin/pullComponentProperties.ts:93-101 | the stripped value is always a suffix of the input |
| ComponentProperties.StripWithoutPrefix | src/plugin/pullComponentProperties.ts:93-101 | a value starting with no `key.` comes back unchanged |
| ComponentProperties.StripInOrder | src/plugin/pullComponentProperties.ts:95-99 | keys apply in order: `colors.primary` becomes `primary`; with keys `colors, primary`, `colors.primary.500` becomes `500`, but with `primary, colors` it becomes `primary.500` |
| ComponentProperties.StripTokenPrefix | src/plugin/pullComponentProperties.ts:93-101 | the loop computes the in-order stripping |
| ComponentProperties.TextStyles | src/plugin/pullComponentProperties.ts:65-83 | `findTextStyles` as a recursive function over the node; characterised by `ComponentProperties.TextStylesAreLastFill` |
| ComponentProperties.TextStylesAreLastFill | src/plugin/pullComponentProperties.ts:65-83 | `findTextStyles` yields at most `textColor`, holding the last `fill` met in a depth-first, in-order walk that does not descend into text nodes |
| ComponentProperties.ChildrenStylesAreLastFill | src/plugin/pullComponentProperties.ts:68-80 | the loop over children sets `textColor` over the accumulator to the last fill found among them |
| ComponentProperties.NestedComponentTextIsCollected | src/plugin/pullComponentProperties.ts:69-71 | the role skip never fires: a nested component's text colour reaches the outer component |
| ComponentProperties.FindTextStyles | src/plugin/pullComponentProperties.ts:65-83 | the loop and the recursion compute `findTextStyles` |
| ComponentProperties.GatherTokens | src/plugin/pullComponentProperties.ts:53-63 | the stripped annotations with the text styles merged over them; characterised by `ComponentProperties.GatherTokensEntries` |
| ComponentProperties.GatheredEntries | src/plugin/pullComponentProperties.ts:54-60 | one entry per plugin-data key other than `componentState`, holding its stripped value |
| ComponentProperties.GatherTokensEntries | src/plugin/pullComponentProperties.ts:53-63 | `gatherTokens`: the stripped annotations, except that a found `textColor` overrides; no other key is added |
| ComponentProperties.Gather | src/plugin/pullComponentProperties.ts:53-63 | the loop over the plugin-data keys, followed by the merge of the text styles, computes `gatherTokens` |
| ComponentProperties.Merge | src/plugin/pullComponentProperties.ts:24-31 | a truthy variant merges into `variants[variant]`, creating it if absent; otherwise the merge goes into `baseStyles`. Gathered properties overwrite, all others stay, and `parts` is untouched |
| ComponentProperties.InsertAt | src/plugin/pullComponentProperties.ts:11-31 | the walk down `key.split('.')`, creating missing parts empty, then the merge at the part reached; proved in the three `Insert…` lemmas |
| ComponentProperties.InsertReachesTarget | src/plugin/pullComponentProperties.ts:11-31 | after the walk the whole path exists, and its end is the part that was there, or an empty one, with the tokens merged in |
| ComponentProperties.InsertKeepsElsewhere | src/plugin/pullComponentProperties.ts:13-22 | the walk changes no part off its path |
| ComponentProperties.InsertKeepsAncestors | src/plugin/pullComponentProperties.ts:13-21 | every part on the way down exists afterwards. An existing one is reused, keeping its variants and base styles |
| ComponentProperties.Build | src/plugin/pullComponentProperties.ts:6-32 | the tree after the loop over the annotated nodes, in order |
| ComponentProperties.RootStaysBare | src/plugin/pullComponentProperties.ts:6-36 | nothing is merged into the synthetic root, so only its `parts` carry information |
| ComponentProperties.Dedupe | src/plugin/pullComponentProperties.ts:39-51 | `dedupeVariants` as a recursive function: every variant compared with its own part's base, every child treated the same; characterised by the `Dedupe…` lemmas below |
| ComponentProperties.DedupeLeavesNoRepeats | src/plugin/pullComponentProperties.ts:39-51 | after `dedupeVariants`, no variant entry anywhere equals the same key of its own part's base styles |
| ComponentProperties.DedupeKeepsTheRest | src/plugin/pullComponentProperties.ts:39-51 | `dedupeVariants` keeps the tree's shape, every base, the variant names, and exactly the entries that differ from their own part's base |
| ComponentProperties.DedupeOfNoRepeats | src/plugin/pullComponentProperties.ts:39-51 | a tree without repeats is left unchanged |
| ComponentProperties.DedupeIdempotent | src/plugin/pullComponentProperties.ts:39-51 | deduplicating twice equals deduplicating once |
| ComponentProperties.DedupeDropsRepeatedEntry | src/plugin/pullComponentProperties.ts:42-44 | a variant entry equal to its part's base entry is deleted, and the other entries of the variant stay |
| ComponentProperties.DedupeKeepsDifferingEntry | src/plugin/pullComponentProperties.ts:42-44 | a variant entry whose value differs from the base entry stays |
| ComponentProperties.DedupeIgnoresAncestorBase | src/plugin/pullComponentProperties.ts:39-51 | an entry equal only to an ancestor's base stays, because each part is compared with its own base |
| ComponentProperties.DedupeVariantStyles | src/plugin/pullComponentProperties.ts:41-46 | the key loop deletes exactly the entries that repeat the base |
| ComponentProperties.DedupePartVariants | src/plugin/pullComponentProperties.ts:40-47 | the outer loop over one part's variants computes the deduplicated variants of that part |
| ComponentProperties.DedupeVariants | src/plugin/pullComponentProperties.ts:39-51 | the loops and the recursion compute `dedupeVariants` |
| ComponentProperties.PullComponentProperties | src/plugin/pullComponentProperties.ts:5-37 | the result is the `parts` of the deduplicated tree built from the annotated nodes in order |
| BoxShadow.NewLayerFields | src/app/components/BoxShadowInput.tsx:168 | the default layer: `x`, `y`, `blur` and `spread` are `'0'`, `color` is `#000000`, `type` is `dropShadow`, and it has no other field |
| BoxShadow.AddShadow | src/app/components/BoxShadowInput.tsx:177-183 | `addShadow`: the default layer appended, a single shadow turned into `[value, default]`; proved in `BoxShadow.AddShadowShape` |
| BoxShadow.RemoveShadow | src/app/components/BoxShadowInput.tsx:185-189 | `removeShadow`: the filter on a list, nothing on a single shadow; proved in `BoxShadow.WithoutIndexDropsOne` |
| BoxShadow.AddShadowShape | src/app/components/BoxShadowInput.tsx:177-183 | adding keeps the earlier layers in order and puts the default layer last; a single shadow becomes `[value, default]` |
| BoxShadow.WithoutIndexDropsOne | src/app/components/BoxShadowInput.tsx:187 | the filter drops exactly the element at the index and keeps the rest in order; an index out of range changes nothing |
| BoxShadow.RemoveUndoesAdd | src/app/components/BoxShadowInput.tsx:177-189 | removing the layer just added restores the list |
| BoxShadow.WithField | src/app/components/BoxShadowInput.tsx:52 | on a single shadow, `onChange` sets that one field and keeps every other |
| BoxShadow.SpliceReplaces | src/app/components/BoxShadowInput.tsx:48 | `splice(i, 1, x)` within range replaces element `i` |
| BoxShadow.SpliceRemoves | src/app/components/BoxShadowInput.tsx:59 | `splice(i, 1)` within range removes element `i` |
| BoxShadow.SpliceInserts | src/app/components/BoxShadowInput.tsx:60 | `splice(i, 0, x)` inserts `x` at `min(i, length)`, keeping everything else in order |
| BoxShadow.Moved | src/app/components/BoxShadowInput.tsx:56-60 | the two splices of `onMoveDebounce`; proved in `BoxShadow.MovedIsPermutation`, `BoxShadow.MovedPosition` and `BoxShadow.MoveBack` |
| BoxShadow.MovedIsPermutation | src/app/components/BoxShadowInput.tsx:56-60 | the move keeps the length and is a permutation |
| BoxShadow.MovedPosition | src/app/components/BoxShadowInput.tsx:56-60 | within range, the dragged layer lands at the hover index, and the other layers keep their order |
| BoxShadow.MoveBack | src/app/components/BoxShadowInput.tsx:56-60 | moving the layer back restores the original order |
| BoxShadow.ShadowLayers.constructor | src/app/components/BoxShadowInput.tsx:36 | the layer list that `SingleShadowInput` receives as `value` |
| BoxShadow.ShadowLayers.Splice | src/app/components/BoxShadowInput.tsx:48 | the shared array becomes the spliced array |
| BoxShadow.ShadowLayers.OnChange | src/app/components/BoxShadowInput.tsx:44-51 | on a list, the layer at the index is replaced in place by a copy with one field set; past the end, a one-field layer is appended |
| BoxShadow.ShadowLayers.OnMove | src/app/components/BoxShadowInput.tsx:56-60 | the two splices move the dragged layer and keep the same layers |
| EditTokenForm.TrimAll | src/app/components/EditTokenForm.tsx:101 | every segment is trimmed, and the count is kept |
| EditTokenForm.NormalizeName | src/app/components/EditTokenForm.tsx:99-102 | the typed name split at `/`, each segment trimmed, joined with `.`; proved in `EditTokenForm.NormalizedHasNoSlash` |
| EditTokenForm.NormalizedHasNoSlash | src/app/components/EditTokenForm.tsx:99-102 | the normalised name contains no `/` |
| EditTokenForm.NormalizeWithoutSlash | src/app/components/EditTokenForm.tsx:99-102 | a name without `/` is only trimmed |
| EditTokenForm.NormalizeExample | src/app/components/EditTokenForm.tsx:99-102 | `a / b` normalises to `a.b` |
| EditTokenForm.OldName | src/app/components/EditTokenForm.tsx:95-98 | `oldName` is the initial name exactly when that name is non-empty and differs from the name as typed, before normalisation |
| EditTokenForm.SubmitAction | src/app/components/EditTokenForm.tsx:92-119 | a pristine form creates, any other edits carrying `oldName`. Both use the active set as parent and the normalised name |
| EditTokenForm.EditRenamesExactly | src/app/components/EditTokenForm.tsx:95-117 | an edit renames references exactly when the initial name is non-empty and differs from both the typed and the normalised name |
| EditTokenForm.SpacingOnlyEditDoesNotRename | src/app/components/EditTokenForm.tsx:95-117 | editing `a.b` typed as `a / b` passes `oldName` but renames nothing |
| EditTokenForm.FindInSet | src/app/components/EditTokenForm.tsx:24-30 | `hasNameThatExistsAlready` finds a token exactly when some resolved token in the active set has that name |
| EditTokenForm.RaisesUniqueError | src/app/components/EditTokenForm.tsx:31-39 | the effect's condition: a pristine form or a changed name, and a token of that name in the active set |
| EditTokenForm.IsValid | src/app/components/EditTokenForm.tsx:22 | `isValid`: a truthy value and no error |
| EditTokenForm.UnchangedNameNeverClashes | src/app/components/EditTokenForm.tsx:31-39 | editing a token under its unchanged name never raises the uniqueness error |
| EditTokenForm.ClashBlocksSubmit | src/app/components/EditTokenForm.tsx:22 | with the uniqueness error set the form is not valid |
| EditTokenForm.Form.constructor | src/app/components/EditTokenForm.tsx:19-20 | the form starts from the token under edit, with no error |
| EditTokenForm.Form.CheckUniqueName | src/app/components/EditTokenForm.tsx:35-39 | the effect sets the error when the form is pristine or the name changed and the name is taken, and never clears it |
| EditTokenForm.Form.ChangeName | src/app/components/EditTokenForm.tsx:45-52 | changing the name clears the error |
| EditTokenForm.Form.ChangeValue | src/app/components/EditTokenForm.tsx:54-68 | changing the value clears the error |
| EditTokenForm.Form.ChangeOption | src/app/components/EditTokenForm.tsx:81-90 | changing an option keeps the error |
| EditTokenForm.Form.HandleSubmit | src/app/components/EditTokenForm.tsx:121-127 | an action is dispatched exactly when the value is truthy and there is no error, and it is the submit action |

## Left out

- Persistence and messaging are not modelled: `updateDocument`, `notifyToUI`, the console, analytics, and the dispatch plumbing of the store's effects. The `editToken` effect's `updateDocument` branch is dropped; only its rename trigger is kept.
- `replaceReferences` is a function parameter. Its source is not part of this model. `parseTokenValues`, `parseJson` and the other helpers are not modelled, nor are the reducers that only call them (`setTokenData`, `setJSONData`).
- The store's `components`, `lastSyncedState` and `editProhibited` fields are not modelled, nor the plain setters for them and for `activeTokenSet`.
- Aliasing of old snapshots is not modelled. `deleteTokenSet`, `renameTokenSet`, `duplicateToken` and `editToken` mutate arrays or objects that earlier states share; the model gives each state its own value.
- Integer-like set names are not modelled: JavaScript lists them first in key order. The prototype chain is not modelled either: `name in tokens` in `addTokenSet` and the `!target.parts[part]` test also see inherited names such as `constructor`.
- Figma host calls and `JSON.parse` are not modelled. A node arrives with its `componentState` and plugin data already decoded, and every decoded value is a string.
- In the component extractor, the walk moves `target` through shared objects. The model rebuilds the path recursively, which gives the same tree.
- `editSingleToken` and `createSingleToken` are not part of this model. The submit action records the payload they receive. `EditTokenForm.EditRenamesExactly` assumes it reaches the `editToken` reducer and effect unchanged.
- `handleObjectChange` is not modelled: spreading a string or a list value into an object has no counterpart here. React rendering, hooks and the debounce are not modelled, and the form is closed on submit.
- Drag-and-drop hover geometry is not modelled; `OnMove` takes the two indices it receives. The `onChange({...value, value: values})` call after the splices is not modelled: it reads `e.target` of an object that has none, so it throws once the array has already been reordered in place.
- BoxShadow.ShadowLayers.OnMove: requires the dragged index to be in range, because drag items only ever carry indices of rendered layers.
- Key order of style maps, token options and parts is not modelled: maps stand in for these objects.
