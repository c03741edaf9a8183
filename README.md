# CloudItemStack, modelled in Dafny

A model of `CloudItemStack`, the item-stack value type of the Cloudburst game server.
A stack has fixed logical fields: type, amount, display name, lore, enchantments,
the `canDestroy` and `canPlaceOn` identifier sets (duplicate-free sequences in the
order `ImmutableSet` iterates them), and a class-keyed metadata map.
It also has three write-once lazy slots:

- `id`, the item identifier;
- `nbt`, the compiled NBT compound;
- `networkData`, the wire form.

The model is one Dafny class, `CloudItem.CloudItemStack`:

- the logical fields are `const`;
- each lazy slot is an `Option` field;
- `getNbt`, `getId`, `getDataTag` and `getNetworkData` are methods that fill the slots;
- the pure parts (`hasTag`, `getMetadata`, `getData`, `hashCode`) are functions.

Each method is proved against a pure step function that states what one call does
to the slots: `OnceCell.Force`, `CloudItem.ForceNbt`, `CloudItem.ForceId` or
`CloudItem.Compare`. Lemmas over runs of calls (`OnceCell.CallsOnCachedSlot`,
`OnceCell.CallsStable`, `OnceCell.CallsRetryUntilSuccess`,
`OnceCell.AfterAbsentIffAllFailed`, and `CloudItem.NbtCallsAreOnceCellCalls`, which
carries them over to `getNbt`) state the memoisation contract. A cached value is returned
without recomputing. The serializer runs only while the slot is absent. A failure
never fills the slot, so a later call can retry. After the first success every call
returns the same value.

The collaborators the stack calls are values of the datatype `Items.Externals`,
passed to the operation that uses them:

- the serializer registered for the type;
- `ItemUtils.toNetwork`;
- `Identifier.fromString`;
- the builder behind `withData`.

Each one is a deterministic function Dafny knows nothing about. The serializer and
the codec are fallible and return `Success` or `Failure`. Two calls may be given
different registries, which models a serializer registered between them.
`hashCode` takes the hash codes of the types it does not own as an
`Items.ElementHashes` value.

Java's `null` is `None`. A thrown exception is a `Failure(Error)`. A Java `int` is
`Items.Int32`. The NBT library's compound is `Nbt.NbtMap`. Two of its semantics are
assumed here because the library is not part of this model:

- `getString(key)` answers `""` when there is no string under `key`;
- `getCompound(key)` answers null when there is no compound under `key`.

## Behaviour worth noting

- `hasTag` (CloudItemStack.java:184) negates a disjunction of emptiness tests. So
  without a cached non-empty tag it is true only when all six attributes are
  populated: data, lore, name, enchantments, `canPlaceOn` and `canDestroy`, not
  when any one of them is.
- `getNbt` locks on `itemName` (line 144), not on a per-instance gate. With no name
  and nothing cached, the call fails with a null-pointer error before serializing.
  The slot is left absent.
- `amount` is not checked by the constructor and may be negative.
- The metadata map is never written after construction. No operation of the stack
  inserts into it.
- `equals(ItemStack)` compares data only when this stack `hasTag`. `isMergeable`
  and `equals(Object)` compare the compiled compounds whenever the type check
  passes, and for `equals(Object)` the amount check too.

## Model

| member | source | states |
|---|---|---|
| OnceCell.Force | src/main/java/org/cloudburstmc/server/item/CloudItemStack.java:165-174 | one check-then-assign call: a cached value is returned without computing; an absent slot runs the computation; the slot is filled exactly on success and stays absent on failure |
| OnceCell.Calls | src/main/java/org/cloudburstmc/server/item/CloudItemStack.java:165-174 | a run of calls has one step per call, and a call that ran returns what the computation gave at that moment |
| OnceCell.CallsOnCachedSlot | src/main/java/org/cloudburstmc/server/item/CloudItemStack.java:165-166 | once the slot is filled, every later call returns the cached value, computes nothing and leaves the slot as it is |
| OnceCell.CallsStable | src/main/java/org/cloudburstmc/server/item/CloudItemStack.java:165-174 | after the first successful call, every later call returns the same value and never runs the computation again |
| OnceCell.CallsRetryUntilSuccess | src/main/java/org/cloudburstmc/server/item/CloudItemStack.java:166-171 | starting absent, a call runs the computation exactly when every earlier call failed, so a failure never poisons the slot |
| OnceCell.AfterIsLastSlot | src/main/java/org/cloudburstmc/server/item/CloudItemStack.java:165-174 | the slot after a non-empty run is the slot left by its last call |
| OnceCell.AfterAbsentIffAllFailed | src/main/java/org/cloudburstmc/server/item/CloudItemStack.java:166-171 | after a run the slot is absent exactly when it started absent and every computation failed |
| CloudItem.ForceNbt | src/main/java/org/cloudburstmc/server/item/CloudItemStack.java:142-154 | one `getNbt` call: a cached compound is returned without serializing; with nothing cached and a null name it fails on the lock and serializes nothing; otherwise it returns the serializer's result and caches it only on success |
| CloudItem.NbtCalls | src/main/java/org/cloudburstmc/server/item/CloudItemStack.java:142-154 | a run of `getNbt` calls, each against its own registry, has one step per call, and a call that serialized returns what that registry's serializer gave for the stack's fields |
| CloudItem.NbtCallsAreOnceCellCalls | src/main/java/org/cloudburstmc/server/item/CloudItemStack.java:142-154 | with a non-null name or a compound already cached, any run of `getNbt` calls, each against its own registry, is a once-cell run over what each registry's serializer produces, so the `OnceCell` lemmas apply |
| CloudItem.NbtCallsWithoutName | src/main/java/org/cloudburstmc/server/item/CloudItemStack.java:143-148 | with a null name and nothing cached, every `getNbt` call fails with the null-lock error, never serializes and leaves the slot absent |
| CloudItem.ForceId | src/main/java/org/cloudburstmc/server/item/CloudItemStack.java:75-85 | a given `id` is returned with no compile; otherwise `getNbt` runs, and on success `id` becomes `fromString` of the compound's "Name" string and is cached; on failure `id` stays absent and the compile's error is returned |
| CloudItem.DataTag | src/main/java/org/cloudburstmc/server/item/CloudItemStack.java:156-163 | the "tag" compound when that key holds one; the empty compound when the key is missing; null when the key holds something that is not a compound |
| CloudItem.Compare | src/main/java/org/cloudburstmc/server/item/CloudItemStack.java:213-221 | for distinct non-null stacks: nothing is compiled unless the types match, the amounts match when checked, and data is checked; a completed answer is type equality, amount equality when checked, and equality of the two compounds when checked; each side's cache moves as one `getNbt` call moves it, the other side only after this side succeeded; it fails exactly when one of those compiles fails, with this side's error if this side failed and the other side's otherwise |
| CloudItem.CompareSymmetric | src/main/java/org/cloudburstmc/server/item/CloudItemStack.java:213-221 | when the comparison completes in both directions, both directions give the same answer |
| CloudItem.Distinct | src/main/java/org/cloudburstmc/server/item/CloudItemStack.java:68-69 | the contents of `ImmutableSet.copyOf`: exactly the input's elements, no duplicates, and the input itself when it has none; its order is stated by `DistinctKeepsFirstOccurrenceOrder` |
| CloudItem.DistinctKeepsFirstOccurrenceOrder | src/main/java/org/cloudburstmc/server/item/CloudItemStack.java:68-69 | the iteration order of `ImmutableSet.copyOf`: the elements follow the order of their first occurrences in the input |
| CloudItem.CopyToSet | src/main/java/org/cloudburstmc/server/item/CloudItemStack.java:68-69 | `ImmutableSet.copyOf` of a nullable collection: nothing for null, and otherwise `Distinct` of it, whose elements, lack of duplicates and first-occurrence order are stated by `Distinct` and `DistinctKeepsFirstOccurrenceOrder` |
| CloudItem.CloudItemStack.Full | src/main/java/org/cloudburstmc/server/item/CloudItemStack.java:49-73 | the full constructor stores `id`, type, amount, name, `nbt` and `networkData` as given, so preloaded caches are kept; every null collection becomes empty and every other one is copied into the stack's own value |
| CloudItem.CloudItemStack.WithAmount | src/main/java/org/cloudburstmc/server/item/CloudItemStack.java:45-47 | the three-argument constructor is the full one with every later argument null |
| CloudItem.CloudItemStack.constructor | src/main/java/org/cloudburstmc/server/item/CloudItemStack.java:41-43 | the two-argument constructor gives amount 1, no name, empty lore, enchantments, `canDestroy`, `canPlaceOn` and data, and no cached `nbt` or `networkData` |
| CloudItem.CloudItemStack.GetNbt | src/main/java/org/cloudburstmc/server/item/CloudItemStack.java:142-154 | the result and the new `nbt` slot are exactly those of `ForceNbt` on the old slot and the stack's logical fields |
| CloudItem.CloudItemStack.GetId | src/main/java/org/cloudburstmc/server/item/CloudItemStack.java:75-85 | the result and the new `id` and `nbt` slots are exactly those of `ForceId` on the old slots |
| CloudItem.CloudItemStack.GetDataTag | src/main/java/org/cloudburstmc/server/item/CloudItemStack.java:156-163 | it moves the `nbt` slot as `getNbt` does, and on success returns `DataTag` of the compound; a compile failure propagates |
| CloudItem.CloudItemStack.GetNetworkData | src/main/java/org/cloudburstmc/server/item/CloudItemStack.java:165-174 | the result and new `networkData` slot are those of a once-cell call whose computation is `toNetwork` of the logical fields |
| CloudItem.CloudItemStack.HasTag | src/main/java/org/cloudburstmc/server/item/CloudItemStack.java:176-185 | true exactly when a cached compound has a non-empty "tag" compound, or all six attributes are populated (data, lore, name, enchantments, `canPlaceOn`, `canDestroy`); one empty attribute makes it false; it reads only the `nbt` slot and cannot change it |
| CloudItem.CloudItemStack.GetMetadata | src/main/java/org/cloudburstmc/server/item/CloudItemStack.java:97-101 | the value stored under the key when there is one, else the given default (which may be null) |
| CloudItem.CloudItemStack.GetData | src/main/java/org/cloudburstmc/server/item/CloudItemStack.java:103-105 | the snapshot has exactly the map's keys and, under each, what `getMetadata` finds |
| CloudItem.CloudItemStack.WithKeyedData | src/main/java/org/cloudburstmc/server/item/CloudItemStack.java:193-196 | a freshly allocated stack, built by the full constructor from the builder's output for this stack's fields, key and value; the receiver is not modified |
| CloudItem.CloudItemStack.WithData | src/main/java/org/cloudburstmc/server/item/CloudItemStack.java:187-191 | a null value fails with a null-pointer error for "data"; otherwise the result is `withData(value.getClass(), value)`: a new stack, with the receiver unchanged |
| CloudItem.CloudItemStack.Equals | src/main/java/org/cloudburstmc/server/item/CloudItemStack.java:213-221 | the same object is equal and nothing is compiled; null is unequal; any other stack gets the outcome and cache moves of `Compare` |
| CloudItem.CloudItemStack.IsMergeable | src/main/java/org/cloudburstmc/server/item/CloudItemStack.java:203-206 | exactly `equals(other, false, true)`: type and compiled compounds compared, amount ignored |
| CloudItem.CloudItemStack.EqualsItem | src/main/java/org/cloudburstmc/server/item/CloudItemStack.java:208-211 | exactly `equals(item, true, hasTag())`, with `hasTag` taken before any compile |
| CloudItem.CloudItemStack.EqualsObject | src/main/java/org/cloudburstmc/server/item/CloudItemStack.java:223-228 | the same object is equal; null is unequal; otherwise exactly `equals(o, true, true)` |
| CloudItem.CloudItemStack.HashCode | src/main/java/org/cloudburstmc/server/item/CloudItemStack.java:230-232 | `Objects.hash` of type, amount, name (0 when null), lore (`List.hashCode`) and enchantments, as the 32-bit wrap of 31^5 + 31^4·type + 31^3·amount + 31^2·name + 31·lore + enchantments; it reads no mutable field, so filling a cache never changes it |
| CloudItem.RetryAfterRegistration | src/main/java/org/cloudburstmc/server/item/CloudItemStack.java:142-154 | three `getNbt` calls on a named stack with nothing cached: the first, with a failing serializer, returns that failure; the second, with a newly working serializer, returns its compound; the third, with the broken registry again, returns the same compound; the slot ends holding it |
| JavaHash.CombineIsWrappedPolynomial | src/main/java/org/cloudburstmc/server/item/CloudItemStack.java:231 | wrapping to 32 bits after every `31 * h + e` step, as `Objects.hash` does, equals wrapping the exact polynomial once |
| JavaHash.HashOfFive | src/main/java/org/cloudburstmc/server/item/CloudItemStack.java:231 | `Objects.hash` of five values is the 32-bit wrap of 31^5 + 31^4·a + 31^3·b + 31^2·c + 31·d + e |

## Left out

- Concurrency is not modelled: `volatile`, `synchronized` and the double-checked locking. Each lazy slot is filled sequentially. The inner re-check of each double-checked lock is always true without concurrency, so the model drops it. The locks are on `type` and `itemName`, which are shared across instances; that sharing is not modelled either.
- The serializer, `toNetwork` and the builder see only the stack's logical fields. Any way they might read or fill the caches through the stack, such as `toNetwork` calling `getNbt`, is not modelled.
- `getBehavior`, `toBuilder` and the accessors `getType`, `getAmount`, `getName`, `getLore`, `getEnchantments`, `getCanDestroy` and `getCanPlaceOn` have no members of their own. The accessors are the `const` fields. `getBehavior` and `toBuilder` only hand off to the registry and the builder, which are not part of this model.
- CloudItem.CloudItemStack.WithKeyedData: does not state that the new stack's metadata holds the new entry. `CloudItemStackBuilder` is not part of this model, so the builder is uninterpreted and only "a new stack, receiver unchanged" is claimed.
- Comparands are restricted to `CloudItemStack`. The `ClassCastException` at line 217 for other `ItemStack` implementations is not modelled. In `equals(Object)`, an object that is not an `ItemStack` gives the same answer as null: false, with nothing compiled.
- The item type is assumed non-null. A null type would make `synchronized (type)` in `getId` throw.
- Item types are assumed interned, so Java's reference `==` on `type` at line 219 is modelled as value equality of `ItemType`.
- Null elements inside the collections passed to the constructor are excluded by the types. So are null metadata keys and null metadata values. With them, the copying constructors and `ConcurrentHashMap` throw.
- A null key passed to `getMetadata` is not modelled: `ClassName` cannot be null, while `ConcurrentHashMap.getOrDefault(null, d)` at line 100 throws a null-pointer exception.
- `withData(metadataClass, null)` is not modelled. The value is non-null there because the builder's handling of null is unknown.
- The unchecked cast in `getMetadata` is not modelled.
- CloudItem.CloudItemStack.Full: the enchantments are kept as a Dafny `map`, which has no order, so the insertion order that `ImmutableMap.copyOf` at line 67 preserves is not modelled. The order that `getEnchantments` exposes is not modelled, and neither is a serializer whose compound depends on that order.
- The hash codes of `ItemType`, `String` and the enchantment map are parameters. Dafny's `char` is a Unicode scalar value, not a UTF-16 unit, so `String.hashCode` is not computed.
- `@ToString` is not modelled.
- `EntityZombiePigman` is not part of this model. It is an attribute bag whose `initEntity` depends on entity classes that are not part of this model.
