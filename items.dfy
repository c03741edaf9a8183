/**
 * The value types an item stack is made of, and the collaborators it calls but does
 * not implement: the serializer registry, the network codec, `Identifier.fromString`
 * and the stack builder. Each collaborator is a deterministic function value passed
 * to the operation that calls it, so two calls may see different registries (a
 * serializer registered between them).
 */
module Items {
  import opened Wrappers
  import opened Nbt

  /** A Java `int`. */
  type Int32 = x: int | -0x8000_0000 <= x < 0x8000_0000

  datatype Identifier = Identifier(namespace: string, path: string)

  /** Item types are interned, so Java's `==` on them is value equality here. */
  datatype ItemType = ItemType(id: Identifier)

  datatype EnchantmentType = EnchantmentType(name: string)
  datatype EnchantmentInstance = EnchantmentInstance(level: int)

  /** A runtime class, the key of the metadata map. */
  type ClassName = string

  /** An arbitrary metadata object; `cls` is what `getClass()` answers for it. */
  datatype Obj = Obj(cls: ClassName, payload: string)

  /** The protocol's wire form of a stack (`ItemData`). */
  datatype ItemData = ItemData(netId: int, damage: int, count: int, tag: Option<NbtMap>)

  /** What a call can throw: a null dereference, or a failure inside a collaborator. */
  datatype Error = NullPointer(what: string) | CollaboratorFailure(message: string)

  /** The logical (final, non-cache) fields of a stack, as the collaborators read them. */
  datatype StackFields = StackFields(
    itemType: ItemType,
    amount: Int32,
    itemName: Option<string>,
    itemLore: seq<string>,
    enchantments: map<EnchantmentType, EnchantmentInstance>,
    canDestroy: seq<Identifier>,
    canPlaceOn: seq<Identifier>,
    data: map<ClassName, Obj>)

  /** The arguments of the full constructor; None stands for a null argument. */
  datatype StackArgs = StackArgs(
    id: Option<Identifier>,
    itemType: ItemType,
    amount: Int32,
    itemName: Option<string>,
    itemLore: Option<seq<string>>,
    enchantments: Option<map<EnchantmentType, EnchantmentInstance>>,
    canDestroy: Option<seq<Identifier>>,
    canPlaceOn: Option<seq<Identifier>>,
    data: Option<map<ClassName, Obj>>,
    nbt: Option<NbtMap>,
    networkData: Option<ItemData>)

  datatype Externals = Externals(
    /** The serializer registered for the stack's type, filling a compound builder. */
    serialize: StackFields -> Result<NbtMap, Error>,
    /** `ItemUtils.toNetwork`. */
    toNetwork: StackFields -> Result<ItemData, Error>,
    /** `Identifier.fromString`. */
    fromString: string -> Identifier,
    /** `toBuilder().itemData(cls, value)` followed by `build()`. */
    withItemData: (StackFields, ClassName, Obj) -> StackArgs)

  /** The element hash codes `hashCode` combines that come from other classes. */
  datatype ElementHashes = ElementHashes(
    ofType: ItemType -> Int32,
    ofString: string -> Int32,
    ofEnchantments: map<EnchantmentType, EnchantmentInstance> -> Int32)
}
