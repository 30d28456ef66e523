# ItemUtil item identity, in Dafny

This project models the item-identity core of the ItemUtil library for Minecraft
servers. ItemUtil gives every item a string id: `minecraft:stone` for a vanilla
material, and `oraxen:…`, `nexo:…` or `itemsadder:…` for an item of one of three
custom-item plugins. The model has three parts.

- **Providers** (`ItemProviders`, in `item_provider.dfy`). The providers form a
  closed, ordered enumeration: ORAXEN, NEXO, ITEMSADDER, then VANILLA. Each has a
  plugin name and a list of namespaces; Nexo also accepts Oraxen's namespace. For
  each provider the model has:
  - the loaded check;
  - the prefix test `isUsingNamespace`;
  - `stripNamespace`, a loop of `String.replace(ns + ":", "")`;
  - the existence check `isValidItem`;
  - the two translations, id → stack and stack → id.
- **Resolution** (`ItemUtils`, in `item_utils.dfy`). An id goes to the first
  provider, in declaration order, that claims it; a stack goes to the first
  provider that can name it. Both fall back to vanilla. `parse`, `exists` and
  `stripNamespace` are built on that choice.
- **Inventories** (`InventoryUtils`, in `inventory_utils.dfy`). An inventory is an
  array of slots, each empty or holding a stack. A slot holds an id when its stack
  parses to exactly that string. The model covers:
  - counting and `contains`;
  - the failing branch of `addItem`;
  - in-place `removeItem`;
  - `first` and `all`;
  - `clear(itemId)`;
  - empty and occupied slot counts;
  - `findSlots`;
  - `swap`.

`host.dfy` (`HostWorld`) holds the world the library queries. The server's
material lookup, the enabled-plugin set, and each plugin's registry, builder and
stack-to-id function are fields of a `Host` value. Every operation that consults
the server or a plugin takes the host as a parameter. The slot-only operations
(`EmptySlots`, `OccupiedSlots`, `FindSlots` and `Swap`) look only at the slots
and do not take it. `strings.dfy` (`Strings`) models Java's `startsWith` and
`replace(target, "")`, with its left-to-right, non-overlapping scan.

Source paths in the table below are relative to the root of the library's
repository.

## Model

| member | source | states |
|---|---|---|
| ItemProviders.Values | common/src/main/java/io/github/milkdrinkers/itemutil/ItemProvider.java:39-43 | There are exactly four providers; each sits at its declaration position, and VANILLA is last. |
| ItemProviders.NamespaceTable | common/src/main/java/io/github/milkdrinkers/itemutil/ItemProvider.java:40-43 | Nexo's namespaces are `nexo` then `oraxen`, and Oraxen's namespace is among them. Vanilla's only namespace is `minecraft`, and its plugin name is empty. Every namespace list is non-empty, colon-free, and has no namespace that is a suffix of another. |
| ItemProviders.IsLoaded | common/src/main/java/io/github/milkdrinkers/itemutil/ItemProvider.java:84-86 | A provider is loaded when it is vanilla or its plugin name is among the enabled plugins. Its partner is `LoadGates`, which states what loading gates. |
| ItemProviders.IsUsingNamespace | common/src/main/java/io/github/milkdrinkers/itemutil/ItemProvider.java:94-106 | An unloaded provider claims nothing; loaded vanilla claims every id; a loaded plugin claims an id exactly when it starts with one of its namespaces followed by `:`. `LoadGates`, `ClaimsOwnNamespace` and `StackIdIsClaimed` state its consequences. |
| ItemProviders.LoadGates | common/src/main/java/io/github/milkdrinkers/itemutil/ItemProvider.java:84-106 | Vanilla is always loaded and claims every id. A provider that is not loaded claims no id, validates none, and translates nothing in either direction. |
| ItemProviders.ClaimsOwnNamespace | common/src/main/java/io/github/milkdrinkers/itemutil/ItemProvider.java:94-106 | A loaded provider claims every id that starts with one of its namespaces followed by `:`. |
| ItemProviders.StripAll | common/src/main/java/io/github/milkdrinkers/itemutil/ItemProvider.java:114-120 | Stripping a list of namespaces never lengthens the id, and an id it does not shorten is returned as it was. |
| ItemProviders.Stripped | common/src/main/java/io/github/milkdrinkers/itemutil/ItemProvider.java:114-120 | The provider's stripped id is the fold `StripAll` over its own namespace list; the loop `StripNamespace` is proved equal to it. |
| ItemProviders.StripAllAbsent | common/src/main/java/io/github/milkdrinkers/itemutil/ItemProvider.java:114-120 | An id containing none of the `ns:` strings of a namespace list is left unchanged by the whole fold. |
| ItemProviders.StripAllPrefixed | common/src/main/java/io/github/milkdrinkers/itemutil/ItemProvider.java:114-120 | For a namespace of the list, `ns + ":" + local` strips to `local` when `local` contains none of the list's `ns':` strings. |
| ItemProviders.StripNamespace | common/src/main/java/io/github/milkdrinkers/itemutil/ItemProvider.java:114-120 | The loop over the namespaces computes the fold `Stripped`: each `ns + ":"` is removed everywhere, one namespace after another in list order. |
| Strings.RemoveAllAbsent | common/src/main/java/io/github/milkdrinkers/itemutil/ItemProvider.java:117 | `replace(target, "")` leaves a string with no occurrence of the target unchanged. |
| Strings.RemoveAllLeading | common/src/main/java/io/github/milkdrinkers/itemutil/ItemProvider.java:117 | `replace` removes a leading occurrence and continues scanning after it. |
| ItemProviders.StripUnprefixed | common/src/main/java/io/github/milkdrinkers/itemutil/ItemProvider.java:114-120 | An id that contains none of the provider's `ns:` strings is returned unchanged. |
| ItemProviders.StripPrefixed | common/src/main/java/io/github/milkdrinkers/itemutil/ItemProvider.java:114-120 | For every namespace `ns` of the provider, `ns + ":" + local` strips to `local`, provided `local` contains none of the provider's `ns':` strings. |
| ItemProviders.StripRemovesRepeatedPrefix | common/src/main/java/io/github/milkdrinkers/itemutil/ItemProvider.java:117 | Every occurrence is removed, not only the leading one: vanilla strips `minecraft:minecraft:` + local down to local. |
| ItemProviders.StripRemovesEveryNamespace | common/src/main/java/io/github/milkdrinkers/itemutil/ItemProvider.java:114-120 | Both of Nexo's namespaces are stripped: `nexo:oraxen:` + local comes out as local. |
| ItemProviders.StripFollowsListOrder | common/src/main/java/io/github/milkdrinkers/itemutil/ItemProvider.java:114-120 | The passes run in list order: Nexo strips `oranexo:xen:` + local to local, because removing `nexo:` first joins `oraxen:`, which the second pass then removes. |
| ItemProviders.StripInReverseOrderDiffers | common/src/main/java/io/github/milkdrinkers/itemutil/ItemProvider.java:114-120 | The order is observable: stripping `oraxen` before `nexo` leaves `oraxen:` + local from the same id. |
| ItemProviders.IsValidItem | common/src/main/java/io/github/milkdrinkers/itemutil/ItemProvider.java:161-183 | An unloaded provider validates nothing. Vanilla validates an id when the server matches a material to the stripped id; a plugin validates it when its registry holds the stripped id. `ParseItem` and `ItemUtils.Parse` state it as their precondition for a result. |
| ItemProviders.ParseItem | common/src/main/java/io/github/milkdrinkers/itemutil/ItemProvider.java:128-153 | Id → stack. A result implies the provider is loaded and the id is valid. A result exists exactly when the id is valid and, for a plugin, its build of the stripped id succeeds. Vanilla yields one item of the matched material. A plugin yields its own build of the stripped id. |
| ItemProviders.ParseStackId | common/src/main/java/io/github/milkdrinkers/itemutil/ItemProvider.java:193-225 | Stack → id. An unloaded provider gives nothing. Vanilla gives the material key. A plugin gives a result exactly when it is loaded and recognises the stack, and the result is its first namespace, `:`, and the plugin's id. |
| ItemProviders.StackIdIsClaimed | common/src/main/java/io/github/milkdrinkers/itemutil/ItemProvider.java:94-106 | The id a plugin gives a stack starts with one of that plugin's own namespaces, so `isUsingNamespace` accepts it. |
| ItemUtils.Providers | common/src/main/java/io/github/milkdrinkers/itemutil/ItemUtils.java:39 | The cached provider list is the enum's values, in declaration order. |
| ItemUtils.GetProvider | common/src/main/java/io/github/milkdrinkers/itemutil/ItemUtils.java:62-68 | The chosen provider claims the id and is loaded, and no provider earlier in declaration order claims the id. |
| ItemUtils.GetStackProvider | common/src/main/java/io/github/milkdrinkers/itemutil/ItemUtils.java:77-83 | The chosen provider can name the stack, and no provider earlier in declaration order can. |
| ItemUtils.VanillaIffUnclaimed | common/src/main/java/io/github/milkdrinkers/itemutil/ItemUtils.java:62-68 | An id resolves to vanilla exactly when none of Oraxen, Nexo or ItemsAdder claims it. |
| ItemUtils.OraxenNamespaceResolution | common/src/main/java/io/github/milkdrinkers/itemutil/ItemUtils.java:62-68 | `oraxen:` + local resolves to Oraxen if it is loaded, otherwise to Nexo if that is loaded, otherwise to vanilla. |
| ItemUtils.NexoIdWithoutNexoIsVanilla | common/src/main/java/io/github/milkdrinkers/itemutil/ItemUtils.java:62-68 | With Nexo unloaded, `nexo:` + local resolves to vanilla, whatever `local` holds. |
| ItemUtils.NexoIdWithoutNexo | common/src/main/java/io/github/milkdrinkers/itemutil/ItemUtils.java:62-68 | With Nexo unloaded, `nexo:` + local resolves to vanilla. When `local` has no colon, such an id then exists, and parses, exactly when the server matches a material named `nexo:` + local. |
| ItemUtils.BareIdIsVanilla | common/src/main/java/io/github/milkdrinkers/itemutil/ItemUtils.java:62-68 | A bare id and `minecraft:` + id both resolve to vanilla. They strip to the same string and agree on parse and exists. |
| ItemUtils.Exists | common/src/main/java/io/github/milkdrinkers/itemutil/ItemUtils.java:136-139 | An id exists when the provider it resolves to validates it. `NexoIdWithoutNexo`, `BareIdIsVanilla` and `AddItemRequest` state what that means for particular ids. |
| ItemUtils.Parse | common/src/main/java/io/github/milkdrinkers/itemutil/ItemUtils.java:94-97 | A parsed stack implies the id exists. The id parses exactly when it exists and its provider is vanilla or builds the stripped id. |
| ItemUtils.ParseStack | common/src/main/java/io/github/milkdrinkers/itemutil/ItemUtils.java:123-126 | Every stack has an id: the one its provider gives, which for vanilla is the material key. |
| ItemUtils.StackIdResolvesBack | common/src/main/java/io/github/milkdrinkers/itemutil/ItemUtils.java:62-83 | The id a stack parses to resolves back to the provider that named the stack. For vanilla this requires a `minecraft:` key. |
| ItemUtils.PluginRoundTrip | common/src/main/java/io/github/milkdrinkers/itemutil/ItemUtils.java:94-126 | When a plugin's registry and builder agree with its stack ids, a plugin stack's id parses to the plugin's build, and that build parses to the same id. |
| ItemUtils.VanillaRoundTrip | common/src/main/java/io/github/milkdrinkers/itemutil/ItemUtils.java:94-126 | A `minecraft:` stack that no plugin recognises parses to its key. The key parses back to one item of the same material, which parses to the same key. |
| ItemUtils.StripNamespace | common/src/main/java/io/github/milkdrinkers/itemutil/ItemUtils.java:148-151 | The result is the id stripped by its own provider. |
| ItemUtils.StripNamespaceVanillaExample | common/src/main/java/io/github/milkdrinkers/itemutil/ItemUtils.java:142 | The documented example: `minecraft:stone` strips to `stone`. |
| ItemUtils.StripNamespaceNexoExample | common/src/main/java/io/github/milkdrinkers/itemutil/ItemUtils.java:142 | The documented example: with Nexo loaded, `nexo:golden_apple` strips to `golden_apple`. |
| InventoryUtils.ParseStackIgnoresAmount | common/src/main/java/io/github/milkdrinkers/itemutil/ItemUtils.java:123-126 | A stack's id does not depend on its amount, because integrations identify items by type alone. |
| InventoryUtils.CountItems | common/src/main/java/io/github/milkdrinkers/itemutil/InventoryUtils.java:125-131 | The count of an id is the sum of the amounts of the non-null slots whose stack parses to exactly that id. Its lemmas `CountNonNegative`, `CountItemsUpdate` and `ContainsIffMatchingSlot` state its properties. |
| InventoryUtils.CountNonNegative | common/src/main/java/io/github/milkdrinkers/itemutil/InventoryUtils.java:125-131 | With no negative stack, the count of any id is at least 0. |
| InventoryUtils.ContainsAtLeast | common/src/main/java/io/github/milkdrinkers/itemutil/InventoryUtils.java:64-66 | `contains(id, amount)` holds when the count of the id is at least `amount`. |
| InventoryUtils.Contains | common/src/main/java/io/github/milkdrinkers/itemutil/InventoryUtils.java:52-54 | `contains(id)` is `contains(id, 1)`; `ContainsIffMatchingSlot` states when it holds. |
| InventoryUtils.ContainsIffMatchingSlot | common/src/main/java/io/github/milkdrinkers/itemutil/InventoryUtils.java:52-66 | With every stack holding at least one item, `contains(id)` (a count of at least 1) holds exactly when some slot holds the id. |
| InventoryUtils.CountItemsUpdate | common/src/main/java/io/github/milkdrinkers/itemutil/InventoryUtils.java:125-131 | Replacing one slot changes `countItems` by exactly what the old and the new slot contribute. |
| InventoryUtils.AddItemRequest | common/src/main/java/io/github/milkdrinkers/itemutil/InventoryUtils.java:172-179 | There is no request exactly when the id does not parse; the inventory is then untouched. Otherwise the request is the parsed item with the requested amount, and the id exists. |
| InventoryUtils.TakeFrom | common/src/main/java/io/github/milkdrinkers/itemutil/InventoryUtils.java:208-218 | One slot of the removal walk, with a positive amount still to remove. A slot that does not hold the id is kept and the amount is unchanged. A holding slot with at most the remaining amount is emptied and the amount drops by its size. A larger holding slot keeps its stack, smaller by the remaining amount, and nothing is left to remove. |
| InventoryUtils.Removed | common/src/main/java/io/github/milkdrinkers/itemutil/InventoryUtils.java:207-219 | The walk as a function of the old contents: it keeps the length, applies `TakeFrom` to the slots from the first one on, and stops once nothing is left to remove. The lemmas below state the result slot by slot. |
| InventoryUtils.RemoveItem | common/src/main/java/io/github/milkdrinkers/itemutil/InventoryUtils.java:203-222 | The walk over the slots, from the lowest index up and stopping when nothing is left to remove, leaves the inventory equal to `Removed` of its old contents. The returned map is always empty. |
| InventoryUtils.RemovedChangedSlot | common/src/main/java/io/github/milkdrinkers/itemutil/InventoryUtils.java:207-219 | A slot that the removal changes holds the id, the amount is positive, and the slots before it hold fewer than `amount` of the id. With `left` the amount minus that earlier count, the slot is emptied when it holds at most `left`, and otherwise holds `left` fewer. |
| InventoryUtils.RemovedEmptiesEarlierSlots | common/src/main/java/io/github/milkdrinkers/itemutil/InventoryUtils.java:207-219 | Removal proceeds from the lowest index: when a slot is changed, every earlier slot holding the id has been emptied. |
| InventoryUtils.RemovedStopsAfterReducing | common/src/main/java/io/github/milkdrinkers/itemutil/InventoryUtils.java:207-219 | The walk stops after a slot it reduces without emptying: every later slot is unchanged. |
| InventoryUtils.RemovedKeepsOtherSlots | common/src/main/java/io/github/milkdrinkers/itemutil/InventoryUtils.java:207-219 | Slots that do not hold the id are never changed, and a non-positive amount changes nothing. |
| InventoryUtils.RemovedCount | common/src/main/java/io/github/milkdrinkers/itemutil/InventoryUtils.java:203-219 | After removal the id's count is `max(0, before - amount)`, for positive amounts and no negative stacks. A non-positive amount leaves the count unchanged. |
| InventoryUtils.RemovedKeepsOtherCounts | common/src/main/java/io/github/milkdrinkers/itemutil/InventoryUtils.java:203-219 | Removal leaves the count of every other id unchanged. |
| InventoryUtils.RemoveAllIsClear | common/src/main/java/io/github/milkdrinkers/itemutil/InventoryUtils.java:203-219 | With all stacks non-empty, removing at least as many items as there are gives the same slots as `clear(itemId)`. |
| InventoryUtils.Cleared | common/src/main/java/io/github/milkdrinkers/itemutil/InventoryUtils.java:395-403 | Every slot holding the id becomes empty, and every other slot is kept. |
| InventoryUtils.Clear | common/src/main/java/io/github/milkdrinkers/itemutil/InventoryUtils.java:395-403 | The loop leaves the inventory equal to `Cleared` of its old contents. |
| InventoryUtils.ClearedCounts | common/src/main/java/io/github/milkdrinkers/itemutil/InventoryUtils.java:395-403 | After clearing, the id's count is 0 and every other id's count is unchanged. |
| InventoryUtils.First | common/src/main/java/io/github/milkdrinkers/itemutil/InventoryUtils.java:257-267 | The result is the lowest slot holding the id with exactly that amount, or -1 when no slot does. |
| InventoryUtils.All | common/src/main/java/io/github/milkdrinkers/itemutil/InventoryUtils.java:302-312 | The map's keys are exactly the slots holding the id, and each key maps to that slot's stack. |
| InventoryUtils.EmptySlots | common/src/main/java/io/github/milkdrinkers/itemutil/InventoryUtils.java:364-368 | The number of null-or-air slots is at most the size. It is zero exactly when no slot is null or air. |
| InventoryUtils.IsEmptySlot | common/src/main/java/io/github/milkdrinkers/itemutil/InventoryUtils.java:366 | A slot counts as empty when it is null or holds an air stack. `EmptySlots` and `OccupiedSlotsAreNonAirStacks` state the counts it gives. |
| InventoryUtils.OccupiedSlots | common/src/main/java/io/github/milkdrinkers/itemutil/InventoryUtils.java:376-378 | Size minus empty slots, between 0 and the size. |
| InventoryUtils.FindSlots | common/src/main/java/io/github/milkdrinkers/itemutil/InventoryUtils.java:472-478 | The result lists exactly the indices of non-null slots whose stack passes the test, in strictly increasing order. |
| InventoryUtils.OccupiedSlotsAreNonAirStacks | common/src/main/java/io/github/milkdrinkers/itemutil/InventoryUtils.java:364-378 | The occupied-slot count equals the number of slots `findSlots` reports as holding a non-air stack. |
| InventoryUtils.Swap | common/src/main/java/io/github/milkdrinkers/itemutil/InventoryUtils.java:487-492 | The two slots are exchanged and no other slot changes. |
| InventoryUtils.SwapPreservesCounts | common/src/main/java/io/github/milkdrinkers/itemutil/InventoryUtils.java:487-492 | A swap leaves the count of every id unchanged. |

## Left out

- Plugin and server APIs are not modelled:
  - `Bukkit.getPluginManager().isPluginEnabled`;
  - `Material.matchMaterial`, as a lookup that yields a material or nothing;
  - `OraxenItems`, `NexoItems` and `CustomStack`.

  Each is a field of `Host`, a function fixed for the duration of a call. Their behaviour is not modelled beyond the signature of the field. A material's key is not computed either: it is the `key` field of the `Material` datatype.
- Each plugin's stack-to-id lookup (`Integration.idOf`) and the vanilla key read a stack's item type and data, never its amount. This is an assumption about the plugins, made by the type `ItemType -> Option<string>`. `ParseStackIgnoresAmount`, and through it `RemovedCount` and `RemovedKeepsOtherCounts`, rest on it: a slot reduced by `removeItem` keeps its id.
- ItemProviders.IsValidItem: `Material.matchMaterial` may throw `IllegalArgumentException`. `isValidItem` calls it outside any `try` (ItemProvider.java:169), so the exception escapes from `isValidItem`, from `exists`, and from `parseItem`, which calls `isValidItem` before its `try`. The model's lookup cannot throw, so these paths yield `false` or `None` instead.
- ItemProviders.ParseItem: the vanilla branch catches `IllegalArgumentException` from `new ItemStack(material, 1)` (ItemProvider.java:139-147) and yields null. The model always builds the stack once the material matches, so it yields `Some` where the source may yield null.
- ItemProviders.ParseItem: none of the three plugin branches checks its registry lookup before using it. Oraxen's `getItemById(...).build()` (ItemProvider.java:149) and ItemsAdder's `CustomStack.getInstance(...).getItemStack()` (line 151) dereference a possibly null result, and Nexo's branch (line 150) passes it through `Objects.requireNonNull`. Each throws when the lookup comes back null. The model makes every plugin build `Option`-valued, so a missing item yields `None` where the source throws.
- ItemProviders.ParseStackId: two cases use one host call where the source makes two.
  - Nexo's `idFromItem` is called twice in the source and once in the model.
  - Oraxen's `exists(stack)` and `getIdByItem(stack)` become one `idOf` that may be missing.
- ItemUtils.GetProvider and ItemUtils.GetStackProvider: the `stream().filter().findFirst().orElse(VANILLA)` pipeline is written as an ordered chain of tests over the provider list. Their contracts state the first-match order in full.
- `parseOptional` is not a separate member. With null written as `None`, it is `Parse` itself.
- InventoryUtils.RemoveItem: the model writes every visited slot back, unchanged when it does not match. The source writes only matching slots. The resulting contents are the same. The model also does not capture that `setAmount` mutates a stack object in place, which another holder of the same object would see.
- InventoryUtils.RemoveItem: the doc comment promises a map of what could not be removed. The code always returns an empty map, and the model follows the code.
- InventoryUtils.Swap requires both slots to be in range. The host's `getItem`/`setItem` throw otherwise, and the model does not cover that exception.
- The model has no bounds on amounts or counts. Java `int` overflow in `countItems` and in amount arithmetic is not modelled.
- ItemUtils.Parse: its contract does not state "exists if and only if parse succeeds". That holds only when the plugin builds every registered item, and the code does not enforce this.
- `getSize()` is taken to be the length of the contents array.
- `addItem`'s success branch is not modelled; it hands the request to the server's own `addItem`. Also not modelled, because they delegate to the server's `Inventory` with no logic of their own:
  - the `ItemStack`- and `Material`-keyed overloads of `contains`, `first`, `all`, `clear` and `removeItem`;
  - `firstEmpty`, `isEmpty`, `isFull` and `clear()`.
- The `ItemStack`- and `Material`-keyed overloads of `countItems` (InventoryUtils.java:140-146 and 155-161) are not modelled. Each runs its own fold over the contents, like the id-keyed one, but matches stacks by the server's `isSimilar` or by material rather than by id, so they are outside the id-keyed core.
- `sort` is not modelled. It sorts an unmodifiable list through an arbitrary comparator and the server's `setContents`, so there is no contract to state.
- `getContents`, `getNonNullContents` and `findItems` are not modelled; they only clone and filter server objects. `findSlots` is modelled with an arbitrary test.
- `setName` and `setLore` are not modelled; they format display text.
- The build script is not modelled.
- Concurrency is not modelled. A plugin being enabled or disabled in the middle of a call is outside the model.
