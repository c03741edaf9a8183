/**
 * The item stack value type: fixed logical fields, three write-once lazy slots
 * (`id`, `nbt`, `networkData`), the `hasTag` heuristic, metadata lookup, the three
 * equality fidelities and the hash code.
 *
 * The pure functions `ForceNbt`, `ForceId` and `Compare` state what one call does to
 * the slots; the methods of `CloudItemStack` are proved to behave as they say.
 */
module CloudItem {
  import opened Wrappers
  import opened Nbt
  import opened Items
  import opened OnceCell
  import JavaHash

  /** `synchronized (itemName)` on a null name. */
  const NullItemName: Error := NullPointer("itemName")

  /** `Preconditions.checkNotNull(data, "data")`. */
  const NullData: Error := NullPointer("data")

  /** One `getNbt` call on a stack with logical fields `f` and slot `slot`. */
  function ForceNbt(slot: Option<NbtMap>, f: StackFields, ext: Externals): (s: Step<NbtMap, Error>)
    ensures slot.Some? ==> s == Step(Success(slot.value), slot, false)
    ensures slot.None? && f.itemName.None? ==> s == Step(Failure(NullItemName), None, false)
    ensures slot.None? && f.itemName.Some? ==> s.ran && s.result == ext.serialize(f)
    ensures s.result.Success? ==> s.slot == Some(s.result.value)
    ensures s.result.Failure? ==> s.slot == None
  {
    if slot.None? && f.itemName.None? then Step(Failure(NullItemName), None, false)
    else Force(slot, ext.serialize(f))
  }

  /** Successive `getNbt` calls on one stack; call i sees the registry `exts[i]`. */
  function NbtCalls(slot: Option<NbtMap>, f: StackFields, exts: seq<Externals>): (steps: seq<Step<NbtMap, Error>>)
    ensures |steps| == |exts|
    ensures forall i :: 0 <= i < |steps| && steps[i].ran ==> steps[i].result == exts[i].serialize(f)
    decreases |exts|
  {
    if exts == [] then []
    else
      var s := ForceNbt(slot, f, exts[0]);
      [s] + NbtCalls(s.slot, f, exts[1..])
  }

  /** What each registry's serializer would produce for `f`. */
  function Serialized(f: StackFields, exts: seq<Externals>): seq<Result<NbtMap, Error>>
  {
    seq(|exts|, i requires 0 <= i < |exts| => exts[i].serialize(f))
  }

  /**
   * With a non-null item name or a compound already cached, a run of `getNbt`
   * calls is a run of once-cell calls,
   * so the memoisation lemmas of `OnceCell` apply to it.
   */
  lemma {:induction false} NbtCallsAreOnceCellCalls(slot: Option<NbtMap>, f: StackFields, exts: seq<Externals>)
    requires f.itemName.Some? || slot.Some?
    ensures NbtCalls(slot, f, exts) == Calls(slot, Serialized(f, exts))
    decreases |exts|
  {
    if exts != [] {
      var s := ForceNbt(slot, f, exts[0]);
      NbtCallsAreOnceCellCalls(s.slot, f, exts[1..]);
      assert Serialized(f, exts)[1..] == Serialized(f, exts[1..]);
    }
  }

  /** With a null item name and nothing cached, every `getNbt` call fails on the lock and serializes nothing. */
  lemma {:induction false} NbtCallsWithoutName(f: StackFields, exts: seq<Externals>)
    requires f.itemName.None?
    ensures |NbtCalls(None, f, exts)| == |exts|
    ensures forall i :: 0 <= i < |exts| ==> NbtCalls(None, f, exts)[i] == Step(Failure(NullItemName), None, false)
    decreases |exts|
  {
    if exts != [] {
      NbtCallsWithoutName(f, exts[1..]);
      assert forall i :: 1 <= i < |exts| ==> NbtCalls(None, f, exts)[i] == NbtCalls(None, f, exts[1..])[i - 1];
    }
  }

  /** One `getId` call: the result and the `id` and `nbt` slots afterwards. */
  datatype IdStep = IdStep(result: Result<Identifier, Error>, id: Option<Identifier>, nbt: Option<NbtMap>)

  function ForceId(id: Option<Identifier>, nbt: Option<NbtMap>, f: StackFields, ext: Externals): (s: IdStep)
    ensures id.Some? ==> s == IdStep(Success(id.value), id, nbt)
    ensures id.None? ==> s.nbt == ForceNbt(nbt, f, ext).slot
    ensures id.None? ==> (s.result.Success? <==> ForceNbt(nbt, f, ext).result.Success?)
    ensures s.result.Success? ==> s.id == Some(s.result.value)
    ensures id.None? && s.result.Success? ==>
      s.nbt.Some? && s.result.value == ext.fromString(GetString(s.nbt.value, "Name"))
    ensures s.result.Failure? ==> s.id == None && s.nbt == nbt && s.result.error == ForceNbt(nbt, f, ext).result.error
  {
    if id.Some? then IdStep(Success(id.value), id, nbt)
    else
      var n := ForceNbt(nbt, f, ext);
      match n.result
      case Failure(e) => IdStep(Failure(e), None, n.slot)
      case Success(m) =>
        var parsed := ext.fromString(GetString(m, "Name"));
        IdStep(Success(parsed), Some(parsed), n.slot)
  }

  /** `getDataTag` on a compiled compound; None is Java's null. */
  function DataTag(m: NbtMap): (t: Option<NbtMap>)
    ensures "tag" !in m ==> t == Some(Empty)
    ensures "tag" in m && m["tag"].NbtCompound? ==> t == Some(m["tag"].entries)
    ensures "tag" in m && !m["tag"].NbtCompound? ==> t.None?
  {
    if "tag" in m then GetCompound(m, "tag") else Some(Empty)
  }

  /** The fast path of `hasTag`: a compound is cached and its "tag" entry is a non-empty compound. */
  predicate CachedTagNonEmpty(nbt: Option<NbtMap>)
  {
    nbt.Some? && GetCompound(nbt.value, "tag").Some? && GetCompound(nbt.value, "tag").value != Empty
  }

  /** One `equals(other, checkAmount, checkData)` call on two distinct non-null stacks. */
  datatype Comparison = Comparison(result: Result<bool, Error>, thisNbt: Option<NbtMap>, otherNbt: Option<NbtMap>)

  /** Whether type and (when checked) amount agree: the part of equality that never compiles. */
  predicate ShallowMatch(a: StackFields, b: StackFields, checkAmount: bool)
  {
    a.itemType == b.itemType && (!checkAmount || a.amount == b.amount)
  }

  function Compare(a: StackFields, aNbt: Option<NbtMap>, b: StackFields, bNbt: Option<NbtMap>,
                   checkAmount: bool, checkData: bool, ext: Externals): (c: Comparison)
    ensures !(ShallowMatch(a, b, checkAmount) && checkData) ==>
      c == Comparison(Success(ShallowMatch(a, b, checkAmount)), aNbt, bNbt)
    ensures c.result.Success? ==>
      (c.result.value <==> ShallowMatch(a, b, checkAmount) && (!checkData || c.thisNbt == c.otherNbt))
    ensures c.result.Success? && ShallowMatch(a, b, checkAmount) && checkData ==>
      c.thisNbt.Some? && c.otherNbt.Some?
    ensures var x, y := ForceNbt(aNbt, a, ext), ForceNbt(bNbt, b, ext);
      ShallowMatch(a, b, checkAmount) && checkData ==>
        && c.thisNbt == x.slot
        && c.otherNbt == (if x.result.Success? then y.slot else bNbt)
        && (c.result.Failure? <==> x.result.Failure? || y.result.Failure?)
        && (c.result.Failure? ==> c.result.error == (if x.result.Failure? then x.result.error else y.result.error))
  {
    if a.itemType != b.itemType then Comparison(Success(false), aNbt, bNbt)
    else if checkAmount && a.amount != b.amount then Comparison(Success(false), aNbt, bNbt)
    else if !checkData then Comparison(Success(true), aNbt, bNbt)
    else
      var x := ForceNbt(aNbt, a, ext);
      match x.result
      case Failure(e) => Comparison(Failure(e), x.slot, bNbt)
      case Success(mine) =>
        var y := ForceNbt(bNbt, b, ext);
        match y.result
        case Failure(e) => Comparison(Failure(e), x.slot, y.slot)
        case Success(theirs) => Comparison(Success(mine == theirs), x.slot, y.slot)
  }

  /** A comparison that completes in both directions gives the same answer both ways. */
  lemma CompareSymmetric(a: StackFields, aNbt: Option<NbtMap>, b: StackFields, bNbt: Option<NbtMap>,
                         checkAmount: bool, checkData: bool, ext: Externals)
    requires Compare(a, aNbt, b, bNbt, checkAmount, checkData, ext).result.Success?
    requires Compare(b, bNbt, a, aNbt, checkAmount, checkData, ext).result.Success?
    ensures Compare(a, aNbt, b, bNbt, checkAmount, checkData, ext).result
         == Compare(b, bNbt, a, aNbt, checkAmount, checkData, ext).result
  {
  }

  function OrEmptySeq<T>(s: Option<seq<T>>): seq<T>
  {
    if s.Some? then s.value else []
  }

  function OrEmptyMap<K, V>(m: Option<map<K, V>>): map<K, V>
  {
    if m.Some? then m.value else map[]
  }

  /**
   * The distinct elements of `s` in order of first occurrence, as `ImmutableSet.copyOf`
   * iterates them: the same elements, no duplicates, and `s` itself when it has none.
   */
  function Distinct(s: seq<Identifier>): (r: seq<Identifier>)
    ensures forall x :: x in r <==> x in s
    ensures forall i, j :: 0 <= i < j < |r| ==> r[i] != r[j]
    ensures (forall i, j :: 0 <= i < j < |s| ==> s[i] != s[j]) ==> r == s
    decreases |s|
  {
    if s == [] then []
    else
      var init := Distinct(s[..|s| - 1]);
      assert forall i, j :: 0 <= i < j < |s| - 1 ==> s[..|s| - 1][i] == s[i] && s[..|s| - 1][j] == s[j];
      assert s == s[..|s| - 1] + [s[|s| - 1]];
      if s[|s| - 1] in init then init else init + [s[|s| - 1]]
  }

  /** The position of the first occurrence of `x` in `s`. */
  function IndexOf(s: seq<Identifier>, x: Identifier): (k: nat)
    requires x in s
    ensures k < |s| && s[k] == x && x !in s[..k]
  {
    if s[0] == x then 0
    else
      var k := 1 + IndexOf(s[1..], x);
      assert s[..k] == [s[0]] + s[1..][..k - 1];
      k
  }

  /** A first occurrence is the only position that is one. */
  lemma IndexOfUnique(s: seq<Identifier>, x: Identifier, k: nat)
    requires k < |s| && s[k] == x && x !in s[..k]
    ensures IndexOf(s, x) == k
  {
  }

  /** Extending a sequence does not move the first occurrence of an element it already had. */
  lemma IndexOfPrefix(s: seq<Identifier>, n: nat, x: Identifier)
    requires n <= |s| && x in s[..n]
    ensures IndexOf(s, x) == IndexOf(s[..n], x)
  {
  }

  /**
   * `Distinct` lists the elements in the order of their first occurrences in `s`, as
   * `ImmutableSet.copyOf` does.
   */
  lemma {:induction false} DistinctKeepsFirstOccurrenceOrder(s: seq<Identifier>)
    ensures forall i, j :: 0 <= i < j < |Distinct(s)| ==> IndexOf(s, Distinct(s)[i]) < IndexOf(s, Distinct(s)[j])
    decreases |s|
  {
    if s != [] {
      var n := |s| - 1;
      var p := s[..n];
      var d := Distinct(p);
      var r := Distinct(s);
      DistinctKeepsFirstOccurrenceOrder(p);
      forall i, j | 0 <= i < j < |r|
        ensures IndexOf(s, r[i]) < IndexOf(s, r[j])
      {
        assert r[i] == d[i] && d[i] in p;
        IndexOfPrefix(s, n, d[i]);
        if j < |d| {
          assert r[j] == d[j] && d[j] in p;
          IndexOfPrefix(s, n, d[j]);
        } else {
          assert r[j] == s[n] && s[n] !in p;
          IndexOfUnique(s, s[n], n);
        }
      }
    }
  }

  /** `ImmutableSet.copyOf` of a nullable collection; a null one gives the empty set. */
  function CopyToSet(c: Option<seq<Identifier>>): (r: seq<Identifier>)
    ensures c.None? ==> r == []
    ensures c.Some? ==> r == Distinct(c.value)
  {
    if c.Some? then Distinct(c.value) else []
  }

  /** The element hash codes of a list of strings. */
  function StringHashes(lore: seq<string>, h: ElementHashes): (hs: seq<Int32>)
    ensures |hs| == |lore| && forall i :: 0 <= i < |lore| ==> hs[i] == h.ofString(lore[i])
  {
    if lore == [] then [] else [h.ofString(lore[0])] + StringHashes(lore[1..], h)
  }

  class CloudItemStack {
    var id: Option<Identifier>
    const itemType: ItemType
    const amount: Int32
    const itemName: Option<string>
    const itemLore: seq<string>
    const enchantments: map<EnchantmentType, EnchantmentInstance>
    /** Duplicate-free, in first-occurrence order. */
    const canDestroy: seq<Identifier>
    const canPlaceOn: seq<Identifier>
    /** The metadata map; no operation of the stack changes it after construction. */
    const data: map<ClassName, Obj>
    var nbt: Option<NbtMap>
    var networkData: Option<ItemData>

    /** The logical fields, as the serializer, the codec and the builder see them. */
    function LogicalFields(): StackFields
    {
      StackFields(itemType, amount, itemName, itemLore, enchantments, canDestroy, canPlaceOn, data)
    }

    /** The stack the full constructor builds from `a`: null collections become empty ones. */
    ghost predicate ConstructedFrom(a: StackArgs)
      reads this
    {
      && id == a.id && itemType == a.itemType && amount == a.amount && itemName == a.itemName
      && itemLore == OrEmptySeq(a.itemLore)
      && enchantments == OrEmptyMap(a.enchantments)
      && canDestroy == CopyToSet(a.canDestroy)
      && canPlaceOn == CopyToSet(a.canPlaceOn)
      && data == OrEmptyMap(a.data)
      && nbt == a.nbt && networkData == a.networkData
    }

    /** The full constructor; every collection is copied, a null one replaced by an empty one. */
    constructor Full(id0: Option<Identifier>, type0: ItemType, amount0: Int32, name0: Option<string>,
                     lore0: Option<seq<string>>, enchantments0: Option<map<EnchantmentType, EnchantmentInstance>>,
                     canDestroy0: Option<seq<Identifier>>, canPlaceOn0: Option<seq<Identifier>>,
                     data0: Option<map<ClassName, Obj>>, nbt0: Option<NbtMap>, networkData0: Option<ItemData>)
      ensures ConstructedFrom(StackArgs(id0, type0, amount0, name0, lore0, enchantments0,
                                        canDestroy0, canPlaceOn0, data0, nbt0, networkData0))
    {
      id := id0;
      itemType := type0;
      amount := amount0;
      itemName := name0;
      itemLore := OrEmptySeq(lore0);
      enchantments := OrEmptyMap(enchantments0);
      canDestroy := CopyToSet(canDestroy0);
      canPlaceOn := CopyToSet(canPlaceOn0);
      data := OrEmptyMap(data0);
      nbt := nbt0;
      networkData := networkData0;
    }

    /** `new CloudItemStack(id, type, amount)`: every other argument null. */
    constructor WithAmount(id0: Option<Identifier>, type0: ItemType, amount0: Int32)
      ensures ConstructedFrom(StackArgs(id0, type0, amount0, None, None, None, None, None, None, None, None))
    {
      id := id0;
      itemType := type0;
      amount := amount0;
      itemName := None;
      itemLore := [];
      enchantments := map[];
      canDestroy := [];
      canPlaceOn := [];
      data := map[];
      nbt := None;
      networkData := None;
    }

    /** `new CloudItemStack(id, type)`: a single item. */
    constructor (id0: Option<Identifier>, type0: ItemType)
      ensures ConstructedFrom(StackArgs(id0, type0, 1, None, None, None, None, None, None, None, None))
      ensures amount == 1 && itemName.None? && itemLore == [] && enchantments == map[]
      ensures canDestroy == [] && canPlaceOn == [] && data == map[] && nbt.None? && networkData.None?
    {
      id := id0;
      itemType := type0;
      amount := 1;
      itemName := None;
      itemLore := [];
      enchantments := map[];
      canDestroy := [];
      canPlaceOn := [];
      data := map[];
      nbt := None;
      networkData := None;
    }

    /** `getNbt`: the compiled compound, serialized on the first successful call only. */
    method GetNbt(ext: Externals) returns (r: Result<NbtMap, Error>)
      modifies this`nbt
      ensures var s := ForceNbt(old(nbt), LogicalFields(), ext); r == s.result && nbt == s.slot
    {
      if nbt.None? {
        if itemName.None? {
          return Failure(NullItemName);
        }
        var compiled := ext.serialize(LogicalFields());
        if compiled.Failure? {
          return Failure(compiled.error);
        }
        nbt := Some(compiled.value);
      }
      r := Success(nbt.value);
    }

    /** `getId`: the given identifier, or the one parsed from the compound's "Name", cached. */
    method GetId(ext: Externals) returns (r: Result<Identifier, Error>)
      modifies this`id, this`nbt
      ensures var s := ForceId(old(id), old(nbt), LogicalFields(), ext);
        r == s.result && id == s.id && nbt == s.nbt
    {
      if id.None? {
        var compiled := GetNbt(ext);
        if compiled.Failure? {
          return Failure(compiled.error);
        }
        id := Some(ext.fromString(GetString(compiled.value, "Name")));
      }
      r := Success(id.value);
    }

    /** `getDataTag`: the "tag" compound of the compiled form, compiling first if needed. */
    method GetDataTag(ext: Externals) returns (r: Result<Option<NbtMap>, Error>)
      modifies this`nbt
      ensures var s := ForceNbt(old(nbt), LogicalFields(), ext);
        && nbt == s.slot
        && r == (if s.result.Success? then Success(DataTag(s.result.value)) else Failure(s.result.error))
    {
      var compiled := GetNbt(ext);
      if compiled.Failure? {
        return Failure(compiled.error);
      }
      r := Success(DataTag(compiled.value));
    }

    /** `getNetworkData`: the wire form, converted on the first successful call only. */
    method GetNetworkData(ext: Externals) returns (r: Result<ItemData, Error>)
      modifies this`networkData
      ensures var s := Force(old(networkData), ext.toNetwork(LogicalFields()));
        r == s.result && networkData == s.slot
    {
      if networkData.None? {
        var converted := ext.toNetwork(LogicalFields());
        if converted.Failure? {
          return Failure(converted.error);
        }
        networkData := Some(converted.value);
      }
      r := Success(networkData.value);
    }

    /** Every attribute the `hasTag` fallback inspects is populated. */
    predicate AllAttributesPopulated()
    {
      && data != map[] && itemLore != [] && itemName.Some?
      && enchantments != map[] && canPlaceOn != [] && canDestroy != []
    }

    /** `hasTag`: answers from the cache when it holds a non-empty tag, otherwise never compiles. */
    function HasTag(): (r: bool)
      reads this`nbt
      ensures r <==> CachedTagNonEmpty(nbt) || AllAttributesPopulated()
      ensures !CachedTagNonEmpty(nbt) && (data == map[] || itemLore == [] || itemName.None?) ==> !r
      ensures !CachedTagNonEmpty(nbt) && (enchantments == map[] || canPlaceOn == [] || canDestroy == []) ==> !r
    {
      if nbt.Some? && GetCompound(nbt.value, "tag").Some? && GetCompound(nbt.value, "tag").value != Empty then
        true
      else
        !(data == map[] || itemLore == [] || itemName.None? || enchantments == map[]
          || canPlaceOn == [] || canDestroy == [])
    }

    /** `getMetadata(key, defaultValue)`; a None default is a null one. */
    function GetMetadata(key: ClassName, defaultValue: Option<Obj>): (r: Option<Obj>)
      ensures key in data ==> r == Some(data[key])
      ensures key !in data ==> r == defaultValue
    {
      if key in data then Some(data[key]) else defaultValue
    }

    /** `getData`: an immutable snapshot of the metadata map. */
    function GetData(): (r: map<ClassName, Obj>)
      ensures r.Keys == data.Keys && forall k :: k in r ==> GetMetadata(k, None) == Some(r[k])
    {
      data
    }

    /** `withData(metadataClass, data)`: a new stack from the builder; this stack is untouched. */
    method WithKeyedData(metadataClass: ClassName, value: Obj, ext: Externals) returns (r: CloudItemStack)
      ensures fresh(r)
      ensures r.ConstructedFrom(ext.withItemData(LogicalFields(), metadataClass, value))
    {
      var a := ext.withItemData(LogicalFields(), metadataClass, value);
      r := new CloudItemStack.Full(a.id, a.itemType, a.amount, a.itemName, a.itemLore, a.enchantments,
                                   a.canDestroy, a.canPlaceOn, a.data, a.nbt, a.networkData);
    }

    /** `withData(data)`: refuses null, otherwise keys the value by its own class. */
    method WithData(value: Option<Obj>, ext: Externals) returns (r: Result<CloudItemStack, Error>)
      ensures value.None? ==> r == Failure(NullData)
      ensures value.Some? ==>
        r.Success? && fresh(r.value) && r.value.ConstructedFrom(ext.withItemData(LogicalFields(), value.value.cls, value.value))
    {
      if value.None? {
        return Failure(NullData);
      }
      var made := WithKeyedData(value.value.cls, value.value, ext);
      r := Success(made);
    }

    /** `equals(other, checkAmount, checkData)`. */
    method Equals(other: CloudItemStack?, checkAmount: bool, checkData: bool, ext: Externals)
      returns (r: Result<bool, Error>)
      modifies this`nbt, {other}`nbt
      ensures other == this ==> r == Success(true) && nbt == old(nbt)
      ensures other == null ==> r == Success(false) && nbt == old(nbt)
      ensures other != null && other != this ==>
        var c := Compare(LogicalFields(), old(nbt), other.LogicalFields(), old(other.nbt), checkAmount, checkData, ext);
        r == c.result && nbt == c.thisNbt && other.nbt == c.otherNbt
    {
      if this == other {
        return Success(true);
      }
      if other == null {
        return Success(false);
      }
      if itemType != other.itemType || (checkAmount && amount != other.amount) {
        return Success(false);
      }
      if !checkData {
        return Success(true);
      }
      var mine := GetNbt(ext);
      if mine.Failure? {
        return Failure(mine.error);
      }
      var theirs := other.GetNbt(ext);
      if theirs.Failure? {
        return Failure(theirs.error);
      }
      r := Success(mine.value == theirs.value);
    }

    /** `isMergeable(other)`: `equals(other, false, true)`, so amounts are ignored. */
    method IsMergeable(other: CloudItemStack, ext: Externals) returns (r: Result<bool, Error>)
      modifies this`nbt, other`nbt
      ensures other == this ==> r == Success(true) && nbt == old(nbt)
      ensures other != this ==>
        var c := Compare(LogicalFields(), old(nbt), other.LogicalFields(), old(other.nbt), false, true, ext);
        r == c.result && nbt == c.thisNbt && other.nbt == c.otherNbt
    {
      r := Equals(other, false, true, ext);
    }

    /** `equals(ItemStack)`: amount checked, data checked only when this stack `hasTag`. */
    method EqualsItem(item: CloudItemStack?, ext: Externals) returns (r: Result<bool, Error>)
      modifies this`nbt, {item}`nbt
      ensures item == this ==> r == Success(true) && nbt == old(nbt)
      ensures item == null ==> r == Success(false) && nbt == old(nbt)
      ensures item != null && item != this ==>
        var c := Compare(LogicalFields(), old(nbt), item.LogicalFields(), old(item.nbt), true, old(HasTag()), ext);
        r == c.result && nbt == c.thisNbt && item.nbt == c.otherNbt
    {
      var tagged := HasTag();
      r := Equals(item, true, tagged, ext);
    }

    /** `equals(Object)`: amount and data both checked; null (or any non-stack) is unequal. */
    method EqualsObject(o: CloudItemStack?, ext: Externals) returns (r: Result<bool, Error>)
      modifies this`nbt, {o}`nbt
      ensures o == this ==> r == Success(true) && nbt == old(nbt)
      ensures o == null ==> r == Success(false) && nbt == old(nbt)
      ensures o != null && o != this ==>
        var c := Compare(LogicalFields(), old(nbt), o.LogicalFields(), old(o.nbt), true, true, ext);
        r == c.result && nbt == c.thisNbt && o.nbt == c.otherNbt
    {
      if o == this {
        return Success(true);
      }
      if o == null {
        return Success(false);
      }
      r := Equals(o, true, true, ext);
    }

    /** `List.hashCode` of the lore. */
    function LoreHash(h: ElementHashes): Int32
    {
      JavaHash.HashOfElements(StringHashes(itemLore, h))
    }

    /**
     * `hashCode`: `Objects.hash(type, amount, itemName, itemLore, enchantments)`. It reads
     * no mutable field, so filling the `id`, `nbt` or `networkData` slot cannot change it.
     */
    function HashCode(h: ElementHashes): (r: Int32)
      ensures r == JavaHash.Wrap(28629151 + 923521 * h.ofType(itemType) + 29791 * amount
                                 + 961 * JavaHash.HashOrZero(itemName, h.ofString)
                                 + 31 * LoreHash(h) + h.ofEnchantments(enchantments))
    {
      var hs := [h.ofType(itemType), amount, JavaHash.HashOrZero(itemName, h.ofString),
                 LoreHash(h), h.ofEnchantments(enchantments)];
      JavaHash.HashOfFive(hs[0], hs[1], hs[2], hs[3], hs[4]);
      JavaHash.HashOfElements(hs)
    }
  }

  /**
   * A compile that fails (no serializer registered yet) leaves the slot absent; a later
   * call with a working serializer compiles and caches; from then on even the broken
   * registry is not consulted again.
   */
  method RetryAfterRegistration(s: CloudItemStack, broken: Externals, fixed: Externals)
    returns (first: Result<NbtMap, Error>, second: Result<NbtMap, Error>, third: Result<NbtMap, Error>)
    requires s.nbt.None? && s.itemName.Some?
    requires broken.serialize(s.LogicalFields()).Failure? && fixed.serialize(s.LogicalFields()).Success?
    modifies s`nbt
    ensures first == broken.serialize(s.LogicalFields())
    ensures second == fixed.serialize(s.LogicalFields())
    ensures third == second
    ensures s.nbt == Some(fixed.serialize(s.LogicalFields()).value)
  {
    first := s.GetNbt(broken);
    second := s.GetNbt(fixed);
    third := s.GetNbt(broken);
  }
}
