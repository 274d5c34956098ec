# fund-calculator: a verified model of the allocation tree

The fund calculator lets a user build a four-level allocation tree: a
category, a sub-category, a fund, and the holdings of that fund. Levels 1-3
carry a target percentage. Level 4 carries an amount of money. The app keeps
the tree in two shapes:

- the edit tree (`DataNode`), shown by the tree widget and edited through a form;
- the radial snapshot (`SunBurstData`), which is charted and persisted.

Whenever the snapshot changes, the app works out two things. The first is the
total the portfolio should have, given each fund's target. The second is what
is held at present. When the expected total is positive, it then rewrites the
value of each holding of a fund whose holdings have a non-zero sum as a
percentage of that expected total.

This project models the logic of `src/App.tsx` in Dafny:

- `key_codec.dfy`: `parseKey` and the position keys `0`, `0-1`, `0-1-2`, ….
- `data_model.dfy`: the two tree shapes, node counts, and the `forEach(push)`
  copy loop. An absent `children` property is `NoChildren`/`NoRings`. A
  `children` property set to `undefined`, as the loader writes it for a node
  without children, is `UndefinedChildren`: an object spread copies it, and
  does not copy an absent one. An empty array is `Children([])`/`Rings([])`.
- `tree_store.dfy`: `addTreeData` with the app's child factory and its root
  insert, `updateTreeData` and the form's patch, and `getAllKeys`, plus the
  unique-key property of position-keyed trees.
- `tree_remove.dfy`: `removeTreeData`, which skips the removed nodes,
  reassigns each survivor's `children` in place, and then renumbers the
  survivors. Also `removeTree`, and adding a child and then removing it again.
- `converter.dfy`: `convertDataNode2SunBurstData` and
  `convertSunBurstData2DataNode`, and the load and store paths built from them.
- `derivation.dfy`: the effect that scans the snapshot for the expected total
  and the level-4 nodes, rewrites the holdings, and reports current and
  missing amounts. It is a class `RadialSnapshot` whose `Derive` method
  changes the snapshot in place, proved against the specification function
  `Derived`.
- `emptied_fund.dfy`: a worked example in which adding a holding to a fund
  without holdings and removing it again leaves the fund with an empty
  holdings array, on which the next run throws.
- `form_value.dfy`: the form's `formatValue`/`parseValue` pair (`¥ 1,234,567` and `40%`).

Values are exact Dafny `real`s in place of JavaScript's floating-point
numbers. Keys are strings.

## Model

| member | source | states |
|---|---|---|
| KeyCodec.ParseKey | src/App.tsx:18-24 | for every key, the falsy (empty) key included, the level is the number of dashes plus one |
| KeyCodec.SplitJoin | src/App.tsx:22 | `split('-')` loses nothing: joining the fields with `-` gives the key back, and there is one field more than there are dashes |
| KeyCodec.DecimalRoundTrip | src/App.tsx:192 | the decimal text of a position reads back as that position |
| KeyCodec.ExtendDeepens | src/App.tsx:411 | `${key}-${n}` is exactly one level below `key`, and its fields are the parent's fields followed by `n` |
| KeyCodec.ExtendInjective | src/App.tsx:411 | two keys built as `${p}-${i}` are equal only when parent and position are |
| KeyCodec.RootKeyLevel | src/App.tsx:425-426 | a root key `${old.length}` is at level 1 |
| KeyCodec.ChildKeyLevel | src/App.tsx:286 | the loader's key `${key}-${index}` is one level below a truthy parent key; with no parent key it is at level 1 |
| TreeStore.AddTreeData | src/App.tsx:133-155 | for one sibling list: same length; every node keeps its own title, data, key and isLeaf; a node with the key gets its children (none counts as `[]`) followed by `child(children, key)`; other childless nodes are unchanged (the nodes below are covered by `AddReaches`, `AddKeepsOthers`, `AddCount` and `AddKeyed`) |
| TreeStore.AddReaches | src/App.tsx:133-155 | in a position-keyed forest, every node with the key, at any depth, is found in the result with `child(children, key)` appended to its children |
| TreeStore.AddKeepsOthers | src/App.tsx:133-155 | in every forest, a node whose subtree does not hold the key is found unchanged in the result, at any depth, also below a node with the key |
| TreeStore.TopMatchesKeyed | src/App.tsx:133-155 | in a position-keyed forest the key of any node is matched exactly once, so an insert below it adds one node (with `AddCount`) |
| TreeStore.AddUnknownKey | src/App.tsx:133-155 | when no node at any depth has the key, the tree comes back unchanged |
| TreeStore.AddCount | src/App.tsx:133-155 | with a childless factory, the node count grows by the number of nodes that have the key without a matching ancestor |
| TreeStore.AppChildFactoryKey | src/App.tsx:406-417 | the new child is keyed `${treeKey}-${children.length}` (the selected key, not the factory's argument), one level below it, with no children property |
| TreeStore.AddRoot | src/App.tsx:419-432 | the old roots are kept, and one root keyed `${old.length}` with an empty children array is appended |
| TreeStore.AddNewTreeKeyed | src/App.tsx:401-434 | when every sibling list is keyed by position, it stays keyed by position after an insert through the app |
| TreeStore.AddKeyed | src/App.tsx:133-155 | inserting with the app's factory keeps a forest keyed by position at every level |
| TreeStore.UpdateTreeData | src/App.tsx:157-173 | same length; a node with the key becomes `{...node, ...patch}` (an absent `isLeaf` or `children` of the patch falls through, a `children: undefined` wins); other nodes keep their entry and whether they have children; other childless nodes are unchanged (the nodes below are covered by `UpdateReaches`, `UpdateKeepsOthers`, `UpdateCount` and `UpdateKeyed`) |
| TreeStore.UpdateReaches | src/App.tsx:157-173 | in a position-keyed forest, every node with the key, at any depth, is replaced in the result by `{...node, ...patch}` |
| TreeStore.UpdateKeepsOthers | src/App.tsx:157-173 | in a position-keyed forest, a node that is neither the node with the key, nor above it, nor below it is found unchanged in the result, at any depth |
| TreeStore.UpdateCountAt | src/App.tsx:157-173 | in a position-keyed forest the update changes the node count only at the node with the key: its subtree is traded for that of the merge |
| TreeStore.UpdateUnknownKey | src/App.tsx:157-173 | when no node has the key, the tree comes back unchanged |
| TreeStore.UpdateCount | src/App.tsx:157-173 | a patch without children leaves the node count as it was |
| TreeStore.UpdateKeyed | src/App.tsx:157-173 | a patch that keeps the node's key and has position-keyed children keeps the tree keyed by position |
| TreeStore.FormSubmitRestoresSelection | src/App.tsx:51-64 | for a selection that carried a children property (an array or `undefined`), a saved root takes the children the selected node had when it was selected, whatever it has now; in a position-keyed tree, the saved node at any depth is replaced by the renamed selection, of which only an absent `isLeaf` falls through |
| TreeStore.StaleFormDropsChild | src/App.tsx:56-63 | a single root loaded with `children: undefined`, given a child and then saved through the form, is back to one node without children |
| TreeStore.StaleFormDropsNestedChild | src/App.tsx:56-63 | in a position-keyed tree, a node at any depth with `children: undefined` that is given a child (one node more) and then saved through the form it was selected with becomes the childless renamed selection, and the tree is back to its old node count |
| TreeStore.AddChildBelow | src/App.tsx:401-417 | the add button below a childless node of a position-keyed tree adds one node, found at that node as its only child, and keeps the tree position-keyed |
| TreeStore.FixedFormKeepsChildren | src/App.tsx:51-64 | with a patch of title and data only, saving keeps the node count and position keying; a saved root keeps its current children and stores the new name and value; in a position-keyed tree, the saved node at any depth becomes itself with the new title and data, its current children kept |
| TreeStore.PreOrderLength | src/App.tsx:311-320 | the listing has one entry per node of the forest |
| TreeStore.PreOrderMembers | src/App.tsx:311-320 | a node is in the listing exactly when it occurs in the forest at some depth |
| TreeStore.GetAllKeys | src/App.tsx:311-320 | the push loop returns the pre-order listing: each node, then its subtree |
| TreeStore.ForestKeysBelow | src/App.tsx:192 | in a forest keyed by position, every key starts with the parent's fields, followed by the position of one of the entries |
| TreeStore.KeyedForestUnique | src/App.tsx:411 | a forest keyed by position never holds two nodes with the same key |
| TreeRemove.RemoveTreeData | src/App.tsx:175-195 | the returned list is the removal `Removal`, and the input list afterwards is `MutatedInput`: each survivor now holds its processed children |
| TreeRemove.RemovalShape | src/App.tsx:175-195 | one result per survivor, in order; the i-th result is keyed by position and keeps the survivor's entry; its children are the removal below the survivor's original key |
| TreeRemove.RemovalCount | src/App.tsx:175-195 | the nodes left plus the nodes of every dropped subtree make up the original count |
| TreeRemove.RemovalLevelled | src/App.tsx:175-195 | every key keeps the level of its depth, so the level-4 rules still apply after a removal |
| TreeRemove.MutatedInputAliases | src/App.tsx:182 | the survivors of the mutated input list are exactly the kept nodes before renumbering |
| TreeRemove.RemoveTree | src/App.tsx:440-447 | with no selected key nothing changes; otherwise the tree becomes the removal of the selected key |
| TreeRemove.RemovalOfAbsentKey | src/App.tsx:175-195 | removing a key no node carries gives a position-keyed forest back unchanged |
| TreeRemove.NextKeyAbsent | src/App.tsx:411 | below a node keyed by position, no node carries the key the next child will get |
| TreeRemove.AddThenRemove | src/App.tsx:401-447 | adding a child below a node with `n` children and removing the new child `${k}-${n}` gives the tree back with the same keys and count, except that an absent or undefined children list at that node is now `[]` |
| TreeRemove.TouchIdentity | src/App.tsx:401-447 | when that node already had a children array, the tree comes back exactly |
| TreeRemove.StaleKeysCollide | src/App.tsx:182-192 | removing root "0" of `[0 -> [0-0], 1 -> [1-0]]` leaves a tree that is not keyed by position; adding a root and then its first child gives two nodes keyed "1-0" |
| TreeRemove.FixedRemovalKeyed | src/App.tsx:175-195 | the corrected removal, which keys children from the survivor's new key, leaves every sibling list keyed by position, whatever the input |
| TreeRemove.FixedRemovalUnique | src/App.tsx:175-195 | after the corrected removal, and after any insert that follows it, no two nodes share a key |
| TreeRemove.FixedRemovalTopLevel | src/App.tsx:175-195 | at the top level the corrected removal agrees with the source: the same survivors in order, with the same keys |
| Converter.LoadIsCanonical | src/App.tsx:281-300 | a loaded node is keyed by position and has no isLeaf; its title shows its own name, value and key, at every level |
| Converter.StoreIsRadialCanonical | src/App.tsx:272-279 | converting such a tree gives radial nodes with no price and with the level of their key |
| Converter.TreeRoundTrip | src/App.tsx:272-300 | tree to radial and back is the identity on trees as the loader builds them |
| Converter.RoundTripKeepsData | src/App.tsx:272-300 | for every tree, tree to radial and back keeps every name, value and the shape, and gives each node its position key |
| Converter.StoreReloadKeepsData | src/App.tsx:338-349 | storing any tree, stale keys and all, and loading it again gives the same names, values and shape, keyed by position and with unique keys |
| Converter.RadialRoundTrip | src/App.tsx:272-300 | radial to tree and back is the identity on price-free, levelled radial data |
| Converter.LoadStoreLoad | src/App.tsx:338-349 | a loaded tree is keyed by position and has unique keys; converting it back and loading again changes nothing |
| Converter.LoadedValueChoice | src/App.tsx:282-289 | on load, the value shown depends on the parent's key: below a level-3 (fund) key a truthy price wins over the value; a root and every other node show the value, whatever price they carry |
| DataModel.PushAll | src/App.tsx:364 | `items.forEach(item => result.push(item))` leaves `result` followed by the items |
| Derivation.ScanFunds | src/App.tsx:359-365 | the scan over one node's funds throws exactly when one of them has an empty holdings array (`reduce` with no initial value); otherwise it gives the running maximum `FoldMax` and appends their holdings in order |
| Derivation.ScanLevel2 | src/App.tsx:358-366 | the same for all the funds below one root: it throws exactly when one of them has an empty holdings array |
| Derivation.Scan | src/App.tsx:356-366 | the scan throws exactly when some fund has an empty holdings array; otherwise it returns the maximum implied total `MaxTotal` and every level-4 node in traversal order |
| Derivation.MaxTotalIsMaximum | src/App.tsx:357-363 | the expected total is at least 0, at least `total / (value / 100)` for every fund with a truthy total, and either 0 or attained by one of them |
| Derivation.FoldMaxBounds | src/App.tsx:361-362 | the running maximum never drops below its start, bounds every funded fund, and is its start or one fund's implied total |
| Derivation.AllDerivableConcat | src/App.tsx:360 | the no-crash condition holds for the funds below several nodes exactly when it holds below each one |
| Derivation.RewriteLeaves | src/App.tsx:378-382 | the loop sets each holding's price to its old value and its value to `value * 100 / maxTotal` |
| Derivation.RewriteFunds | src/App.tsx:373-384 | only a fund whose holdings have a truthy sum is rewritten |
| Derivation.RewriteItems | src/App.tsx:371-385 | the rewrite reaches every fund below a root and nothing else |
| Derivation.RewriteByLevel | src/App.tsx:369-386 | levels 1 and 2 keep name, value, price and level; the funds are rewritten one by one in place; the holdings are the rewritten funds' holdings |
| Derivation.ValueSumScales | src/App.tsx:381 | the rewritten holdings of a fund sum to the old sum times `100 / maxTotal` |
| Derivation.FundShares | src/App.tsx:357-386 | the fund that sets the expected total ends with holdings summing exactly to its target percentage; every other fund with a positive target and sum ends at or below its target |
| Derivation.PriceSumRewritten | src/App.tsx:379 | the prices of rewritten holdings sum to their old values |
| Derivation.RadialSnapshot.Derive | src/App.tsx:352-394 | when the scan throws on a fund with an empty holdings array, the snapshot is left as it was and no summary is reported (`None`); otherwise the snapshot becomes `Derived(old snapshot)`, and the summary is the expected total and, when there are holdings, the current and missing amounts |
| Derivation.RadialSnapshot.RewriteRoots | src/App.tsx:369-386 | the in-place rewrite of the snapshot root by root leaves it equal to `Rewrite(old snapshot, maxTotal)` |
| Derivation.FirstRunCurrentTotal | src/App.tsx:389-392 | on a price-free snapshot with holdings, the current amount is the holdings' sum when the expected total is positive, 0 otherwise; the missing amount is the expected total minus it |
| Derivation.NoLeavesNoChange | src/App.tsx:356-392 | for a run that finishes, without level-4 nodes the expected total is 0, nothing is rewritten, and no holdings are reported; a fund with an empty holdings array has no level-4 nodes either, and on it the run throws instead (`Derive` gives `None`, see `EmptiedFundRun`) |
| Derivation.ReloadShowsAmount | src/App.tsx:287-289 | loading a rewritten holding shows its amount again: the price wins when it is truthy, and when it is 0 the rewritten value is 0 too |
| Derivation.SingleFundMax | src/App.tsx:357-363 | one fund at 50% with holdings summing to s implies an expected total of 2s |
| Derivation.FirstRunExample | src/App.tsx:356-392 | three holdings of 100 in a 50% fund: expected 600; each holding becomes 100/6 percent with price 100; 300 is held and 300 is missing |
| Derivation.DerivationNotIdempotent | src/App.tsx:356-392 | a second run on its own output reports an expected 100 with 50 held: the derivation is not idempotent |
| EmptiedFund.RemovalEmpties | src/App.tsx:401-447 | selecting the second fund of the example tree, adding a holding and removing it again gives the tree back with that fund's `children` now `[]`, the same node count, and position keys |
| EmptiedFund.EmptiedFundThrows | src/App.tsx:356-366 | before the add no fund of the example makes the run throw; after the add and the removal the emptied fund does, while no fund has a zero target with a positive total |
| EmptiedFund.EmptiedFundRun | src/App.tsx:352-394 | the run on the loaded example reports an expected 200 with 100 held; on the snapshot after the add and the removal it throws and reports nothing |
| EmptiedFund.EmptiedFundFigures | src/App.tsx:356-392 | read as a sum of 0, the emptied fund weighs nothing, and the figures are those from before the add: expected 200, 100 held, 100 missing |
| EmptiedFund.FundsMax | src/App.tsx:357-363 | in the example, before and after, the first fund implies 100 / 50% = 200 and the other fund weighs nothing |
| FormValue.DigitRunIsMaximal | src/App.tsx:90 | the digit run at a position is all digits and ends at a non-digit or at the end of the text |
| FormValue.StripCommasFrom | src/App.tsx:82-90 | removing commas undoes the comma insertion on text without commas or yen signs |
| FormValue.AmountRoundTrip | src/App.tsx:79-93 | at level 4, parsing the formatted `¥ …` text gives the value back, when it holds no `,` and no `¥` |
| FormValue.PercentRoundTrip | src/App.tsx:79-93 | at levels 1-3, parsing the formatted `…%` text gives the value back, when it holds no `%` |
| FormValue.AbsentValueShown | src/App.tsx:79-93 | an absent value is shown as `undefined%` away from level 4, and an absent or empty text parses to the empty text |
| FormValue.GroupingExample | src/App.tsx:90 | 1234567 is shown as `¥ 1,234,567` |

## Left out

- The React components, hooks, JSX rendering and antd widgets. The title of a node is the props of its `TreeTitle` element (`Title`); what it renders is not modelled.
- ECharts: the chart options, the label formatter, `setOption`, and the subtitle strings (`toFixed` rounding, the Chinese text). `Summary` carries the numbers the subtitles show.
- `localStorage` (`loadData`, `storeData`, the backup button) is I/O. The load and store paths are modelled from the parsed value on.
- `console.log`.
- The guard that hides the add button at level 4. The form's `onFinishFailed` and the effect that fills the form's fields. The node the form edits is the selection as a parameter (`selected`); how antd hands it over is not modelled. `update` is `UpdateTreeData`; the spread copy `[...]` does not change the value.
- The `no` field of `DataNode` is never read, so it is not modelled.
- FormSubmitRestoresSelection, FixedFormKeepsChildren, StaleFormDropsNestedChild: the clauses about nodes below the roots assume a tree keyed by position, as the loader builds it, so that the key names one node. After a removal has left stale keys (see "## Findings") two nodes may share a key, and for such trees only the root-level clauses are stated.
- AddTreeData, UpdateTreeData: their own contracts describe one sibling list, not by a recursive clause. At any depth, the nodes with the key are stated by `AddReaches`/`UpdateReaches` and the nodes away from it by `AddKeepsOthers`/`UpdateKeepsOthers`; the node count and position keying by the count and keying lemmas. `UpdateReaches`, `UpdateKeepsOthers` and `AddReaches` assume a position-keyed tree; `AddKeepsOthers` holds for every tree.
- `React.Key` may be a number; every key here is a string.
- RemoveTreeData: the in-place reassignment is modelled on the top-level list (`listAfter`). That deeper nodes of the old tree are changed too, through sharing, is not modelled.
- RadialSnapshot.Derive: requires `AllFinite` of the level-3 nodes: no fund has a positive total and target 0, which in the source makes `maxTotal` Infinity. A negative total with target 0 gives -Infinity, which the source skips, and so does the model. The empty holdings array on which `reduce` throws is modelled as an error path (`None`).
- Scan, ScanLevel2, ScanFunds: the same `AllFinite` condition is required, for the Infinity reason above. The throw on an empty holdings array is the `thrown` result. The scan tests `total != 0 && value != 0` before comparing, which is the source's `total && …` test together with the -Infinity that never wins.
- The mutation of the snapshot objects that the chart options and the `result` array share is modelled as the one field `RadialSnapshot.nodes`. The current total is read from the rewritten leaves, as the aliasing makes the source do.
- Floating point: the model uses exact `real` arithmetic, so rounding in `value * 100 / maxTotal`, and NaN/Infinity, are not modelled.
- FormValue.AmountRoundTrip: the comma pattern also groups the digits after a decimal point (`1234.5678` is shown as `¥ 1,234.5,678`). The round trip still holds for such values, but no concrete example of that grouping is proved.
- Text after `\s` in the amount parser is limited to the characters JavaScript's `\s` matches, listed in `IsJsSpace`. No Unicode normalisation is modelled.

## Findings

| source | as written | input that shows it | evidently intended | confidence | as-written member | corrected member |
|---|---|---|---|---|---|---|
| src/App.tsx:56-63 | the form's patch is a copy of the node as it was selected, children included, and the spread in `updateTreeData` lets those children win | load a tree, select a node without children at any depth (a fund without holdings: `children: undefined`), add a child to it, then save the form: the child is gone and the node count is back where it was | saving the form changes the node's name and value only | not executed | TreeStore.StaleFormDropsNestedChild | TreeStore.FixedFormKeepsChildren |
| src/App.tsx:182-192 | a survivor's children are re-keyed from its OLD key before the survivor itself is renumbered, so the descendants of a moved node keep a stale prefix | remove root "0" of `[0 -> [0-0], 1 -> [1-0]]`, then add a root and a child below it: two nodes are keyed "1-0" | every node keyed by its position after a removal, so that keys stay unique | not executed | TreeRemove.StaleKeysCollide | TreeRemove.FixedRemovalUnique |
| src/App.tsx:360 | a fund's total is `children.map(…).reduce((p, v) => p + v)` with no initial value, which throws on an empty array; the effect then stops before it rewrites the snapshot, sets the chart option or stores the data | load a tree with a fund without holdings, select that fund, add a holding, select the holding and remove it: the fund now has `children: []`, and the next run of the effect throws, as does every run while the fund stays empty | an empty fund read as a total of 0, as `reduce((p, v) => p + v, 0)` gives it, so that the run reports the figures from before the add | not executed | EmptiedFund.EmptiedFundRun | EmptiedFund.EmptiedFundFigures |

The model of the app keeps the behaviour as written (`RemoveTreeData`,
`RemoveTree`). `FixedRemoval` is the corrected definition.
`FixedRemovalKeyed` proves it keeps every sibling list keyed by position.
`FixedRemovalUnique` combines it with the insert lemma `AddNewTreeKeyed` and
the key-uniqueness lemma `KeyedForestUnique`. Reloading regenerates every
key, whatever snapshot is stored (`LoadStoreLoad`), so in the app the stale
keys only last until the next reload. The snapshot the app stores is the
derived one. Converting a tree and loading it again keeps names, values and
shape (`StoreReloadKeepsData`). After one run of the derivation, a reloaded
holding shows its amount again (`ReloadShowsAmount`). A second run changes
the reported figures (`DerivationNotIdempotent`).

For the form, the model of the app also keeps the behaviour as written
(`FormSubmit`). `FixedFormSubmit` sends only the new title and data.
