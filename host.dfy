/**
 * The world the item library runs in: the server's item representation and the
 * plugin integrations it queries. None of these are implemented by the library;
 * each host API is a field of `Host`, so every operation of the model is a
 * function of an explicit, fixed snapshot of the world.
 */
module HostWorld {

  /** A value that may be missing; stands for Java's nullable references. */
  datatype Option<T> = None | Some(value: T)

  /** A material (item type) of the server, identified by its namespaced key, e.g. "minecraft:stone". */
  datatype Material = Material(key: string)

  /** The empty material. */
  const AIR: Material := Material("minecraft:air")

  /**
   * What an item is, as opposed to how many of it there are: its material and the
   * persistent data that custom-item plugins tag their items with.
   */
  datatype ItemType = ItemType(material: Material, data: map<string, string>)

  /** An item stack: an item type and an amount. */
  datatype ItemStack = ItemStack(item: ItemType, amount: int)

  /**
   * The API of one custom-item plugin (Oraxen, Nexo or ItemsAdder):
   *  - `isRegistered(localId)`: whether the plugin's registry holds that id;
   *  - `build(localId)`: a fresh stack of that item, if the plugin yields one;
   *  - `idOf(item)`: the plugin's local id for an item, if the item is one of its own;
   *    it sees the item's type and data only, never a stack's amount.
   */
  datatype Integration = Integration(
    isRegistered: string -> bool,
    build: string -> Option<ItemStack>,
    idOf: ItemType -> Option<string>)

  /**
   * A snapshot of the server: which plugins are enabled, the server's own
   * material lookup by name, and the three custom-item integrations.
   */
  datatype Host = Host(
    enabledPlugins: set<string>,
    matchMaterial: string -> Option<Material>,
    oraxen: Integration,
    nexo: Integration,
    itemsAdder: Integration)
}
