/**
 * The part of the NBT library's compound (`NbtMap`) that the item stack relies on:
 * a map from string keys to tagged values, string lookup with an empty-string default
 * and compound lookup that answers null (here None) for a missing or non-compound entry.
 */
module Nbt {
  import opened Wrappers

  datatype NbtValue =
    | NbtString(text: string)
    | NbtCompound(entries: map<string, NbtValue>)
      /** Numbers, lists and arrays: opaque to the item stack. */
    | NbtOther(kind: nat, payload: seq<int>)

  type NbtMap = map<string, NbtValue>

  /** `NbtMap.EMPTY`. */
  const Empty: NbtMap := map[]

  /** `getString(key)`: the string stored under `key`, or "" when there is none. */
  function GetString(m: NbtMap, key: string): string
  {
    if key in m && m[key].NbtString? then m[key].text else ""
  }

  /** `getCompound(key)`: the compound stored under `key`, or null when there is none. */
  function GetCompound(m: NbtMap, key: string): Option<NbtMap>
  {
    if key in m && m[key].NbtCompound? then Some(m[key].entries) else None
  }
}
