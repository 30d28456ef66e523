/**
 * Resolution of ids and stacks to providers, and the operations composed from it:
 * parse an id into a stack, parse a stack into an id, check that an id exists,
 * strip the namespace of an id.
 */
module ItemUtils {
  import opened HostWorld
  import opened Strings
  import opened ItemProviders

  /** The cached provider list: the enum's values, in declaration order. */
  function Providers(): (ps: seq<ItemProvider>)
    ensures ps == Values()
    ensures forall k :: 0 <= k < |ps| ==> Ordinal(ps[k]) == k
  {
    Values()
  }

  /**
   * The provider of an id: the first provider, in declaration order, that claims
   * it, falling back to vanilla. Vanilla claims every id, so the result always
   * claims the id (and is therefore loaded) and no earlier provider does.
   */
  function GetProvider(host: Host, itemId: string): (r: ItemProvider)
    ensures IsUsingNamespace(host, r, itemId) && IsLoaded(host, r)
    ensures forall q: ItemProvider :: Ordinal(q) < Ordinal(r) ==> !IsUsingNamespace(host, q, itemId)
  {
    var ps := Providers();
    if IsUsingNamespace(host, ps[0], itemId) then ps[0]
    else if IsUsingNamespace(host, ps[1], itemId) then ps[1]
    else if IsUsingNamespace(host, ps[2], itemId) then ps[2]
    else ps[3]
  }

  /**
   * The provider of a stack: the first provider, in declaration order, that can
   * translate it to an id, falling back to vanilla. Vanilla translates every
   * stack, so the result always can, and no earlier provider can.
   */
  function GetStackProvider(host: Host, stack: ItemStack): (r: ItemProvider)
    ensures ParseStackId(host, r, stack).Some?
    ensures forall q: ItemProvider :: Ordinal(q) < Ordinal(r) ==> ParseStackId(host, q, stack).None?
  {
    var ps := Providers();
    if ParseStackId(host, ps[0], stack).Some? then ps[0]
    else if ParseStackId(host, ps[1], stack).Some? then ps[1]
    else if ParseStackId(host, ps[2], stack).Some? then ps[2]
    else ps[3]
  }

  /** Whether an item exists with this id: the validity check of the id's provider. */
  predicate Exists(host: Host, itemId: string)
  {
    IsValidItem(host, GetProvider(host, itemId), itemId)
  }

  /**
   * Id -> stack through the id's provider. A stack comes back only for an id that
   * exists, and for every existing id whose provider builds a stack for it.
   */
  function Parse(host: Host, itemId: string): (r: Option<ItemStack>)
    ensures r.Some? ==> Exists(host, itemId)
    ensures r.Some? <==>
              Exists(host, itemId) &&
              (GetProvider(host, itemId) == VANILLA ||
               IntegrationOf(host, GetProvider(host, itemId)).build(Stripped(GetProvider(host, itemId), itemId)).Some?)
  {
    ParseItem(host, GetProvider(host, itemId), itemId)
  }

  /**
   * Stack -> id through the stack's provider. Never missing: the id is the one the
   * stack's provider gives, vanilla's material key when no plugin recognises the stack.
   */
  function ParseStack(host: Host, stack: ItemStack): (r: string)
    ensures ParseStackId(host, GetStackProvider(host, stack), stack) == Some(r)
    ensures GetStackProvider(host, stack) == VANILLA ==> r == stack.item.material.key
  {
    ParseStackId(host, GetStackProvider(host, stack), stack).value
  }

  /** The id with the namespaces of its own provider stripped out. */
  method StripNamespace(host: Host, itemId: string) returns (r: string)
    ensures r == Stripped(GetProvider(host, itemId), itemId)
  {
    var provider := GetProvider(host, itemId);
    r := ItemProviders.StripNamespace(provider, itemId);
  }

  /** An id is resolved to vanilla exactly when no custom provider claims it. */
  lemma VanillaIffUnclaimed(host: Host, itemId: string)
    ensures GetProvider(host, itemId) == VANILLA <==>
              !IsUsingNamespace(host, ORAXEN, itemId) &&
              !IsUsingNamespace(host, NEXO, itemId) &&
              !IsUsingNamespace(host, ITEMSADDER, itemId)
  {
  }

  /**
   * Tie-break on Oraxen's namespace, which Nexo also claims: "oraxen:x" goes to
   * Oraxen when it is loaded, else to Nexo when that is loaded, else to vanilla.
   */
  lemma OraxenNamespaceResolution(host: Host, local: string)
    ensures GetProvider(host, "oraxen:" + local) ==
              if IsLoaded(host, ORAXEN) then ORAXEN
              else if IsLoaded(host, NEXO) then NEXO
              else VANILLA
  {
    var oraxen := "oraxen";
    var id := oraxen + ":" + local;
    assert "oraxen:" + local == id;
    StartsWithOwnPrefix(oraxen, local);
    assert ORAXEN.Namespaces()[0] == oraxen;
    assert IsLoaded(host, ORAXEN) ==> IsUsingNamespace(host, ORAXEN, id);
    assert NEXO.Namespaces()[1] == oraxen;
    assert IsLoaded(host, NEXO) ==> IsUsingNamespace(host, NEXO, id);
    if StartsWith(id, "itemsadder" + ":") {
      StartsWithFirst(id, "itemsadder");
    }
    assert !IsUsingNamespace(host, ITEMSADDER, id);
  }

  /** With Nexo disabled, a "nexo:" id falls through to vanilla, whatever follows the colon. */
  lemma NexoIdWithoutNexoIsVanilla(host: Host, local: string)
    requires !IsLoaded(host, NEXO)
    ensures GetProvider(host, "nexo:" + local) == VANILLA
  {
    var id := "nexo" + ":" + local;
    assert "nexo:" + local == id;
    if StartsWith(id, "oraxen" + ":") {
      StartsWithFirst(id, "oraxen");
    }
    if StartsWith(id, "itemsadder" + ":") {
      StartsWithFirst(id, "itemsadder");
    }
    assert !IsUsingNamespace(host, ORAXEN, id);
    assert !IsUsingNamespace(host, ITEMSADDER, id);
  }

  /**
   * ... and vanilla then sees the whole "nexo:" id, since "minecraft:" does not
   * occur in it: such an id exists and parses only if the host's material
   * lookup accepts "nexo:" + local as written.
   */
  lemma NexoIdWithoutNexo(host: Host, local: string)
    requires !IsLoaded(host, NEXO)
    requires ':' !in local
    ensures GetProvider(host, "nexo:" + local) == VANILLA
    ensures Exists(host, "nexo:" + local) <==> host.matchMaterial("nexo:" + local).Some?
    ensures Parse(host, "nexo:" + local).Some? <==> host.matchMaterial("nexo:" + local).Some?
  {
    NexoIdWithoutNexoIsVanilla(host, local);
    var nexo := "nexo";
    var id := nexo + ":" + local;
    assert "nexo:" + local == id;
    var minecraft := VANILLA.Namespaces()[0];
    assert ':' in minecraft + ":";
    NoColonNoOccurrence(minecraft + ":", local);
    PrefixAddsNoOccurrence(nexo, minecraft, local);
    StripUnprefixed(VANILLA, id);
  }

  /**
   * A bare id is a vanilla id: "stone" resolves to vanilla, and parses, exists
   * and strips exactly as "minecraft:stone" does.
   */
  lemma BareIdIsVanilla(host: Host, local: string)
    requires ':' !in local
    ensures GetProvider(host, local) == VANILLA
    ensures GetProvider(host, "minecraft:" + local) == VANILLA
    ensures Stripped(VANILLA, local) == local == Stripped(VANILLA, "minecraft:" + local)
    ensures Parse(host, local) == Parse(host, "minecraft:" + local)
    ensures Exists(host, local) == Exists(host, "minecraft:" + local)
  {
    var minecraft := VANILLA.Namespaces()[0];
    var id := minecraft + ":" + local;
    assert "minecraft:" + local == id;
    forall p: ItemProvider, ns: string | p != VANILLA && ns in p.Namespaces()
      ensures !StartsWith(local, ns + ":") && !StartsWith(id, ns + ":")
    {
      if |ns + ":"| <= |local| {
        assert local[|ns|] in local;
        assert local[..|ns + ":"|][|ns|] != (ns + ":")[|ns|];
      }
      if StartsWith(id, ns + ":") {
        StartsWithFirst(id, ns);
      }
    }
    assert ':' in minecraft + ":";
    NoColonNoOccurrence(minecraft + ":", local);
    StripUnprefixed(VANILLA, local);
    StripPrefixed(VANILLA, minecraft, local);
  }

  /**
   * The id a stack parses to resolves back to the provider that produced it; for
   * a vanilla stack this needs a material key in the "minecraft" namespace.
   */
  lemma StackIdResolvesBack(host: Host, stack: ItemStack)
    requires GetStackProvider(host, stack) == VANILLA ==> StartsWith(stack.item.material.key, "minecraft:")
    ensures GetProvider(host, ParseStack(host, stack)) == GetStackProvider(host, stack)
  {
    var p, id := GetStackProvider(host, stack), ParseStack(host, stack);
    if p != VANILLA {
      StackIdIsClaimed(host, p, stack);
    }
    forall q: ItemProvider | Ordinal(q) < Ordinal(p) && q != VANILLA
      ensures !IsUsingNamespace(host, q, id)
    {
      if IsUsingNamespace(host, q, id) {
        var k :| 0 <= k < |q.Namespaces()| && StartsWith(id, q.Namespaces()[k] + ":");
        StartsWithFirst(id, q.Namespaces()[k]);
        StartsWithFirst(id, p.Namespaces()[0]);
      }
    }
  }

  /**
   * Round trip through a plugin: a stack a plugin recognises parses to an id that
   * parses back to the plugin's own build of the item, and that build parses to the
   * same id again, when the plugin's registry and build agree with its stack ids.
   */
  lemma PluginRoundTrip(host: Host, stack: ItemStack, built: ItemStack)
    requires GetStackProvider(host, stack) != VANILLA
    requires
      var p := GetStackProvider(host, stack);
      var local := IntegrationOf(host, p).idOf(stack.item).value;
      && NamespaceFree(p, local)
      && IntegrationOf(host, p).isRegistered(local)
      && IntegrationOf(host, p).build(local) == Some(built)
      && IntegrationOf(host, p).idOf(built.item) == Some(local)
      && GetStackProvider(host, built) == p
    ensures Parse(host, ParseStack(host, stack)) == Some(built)
    ensures ParseStack(host, built) == ParseStack(host, stack)
  {
    var p := GetStackProvider(host, stack);
    var local := IntegrationOf(host, p).idOf(stack.item).value;
    StackIdResolvesBack(host, stack);
    StripPrefixed(p, p.Namespaces()[0], local);
  }

  /**
   * Round trip through vanilla: a stack of a "minecraft" material that no plugin
   * recognises parses to its key, which parses back to a single item of the same
   * material, which parses to the same key again.
   */
  lemma VanillaRoundTrip(host: Host, stack: ItemStack, name: string)
    requires GetStackProvider(host, stack) == VANILLA
    requires stack.item.material.key == "minecraft:" + name && ':' !in name
    requires host.matchMaterial(name) == Some(stack.item.material)
    requires GetStackProvider(host, ItemStack(ItemType(stack.item.material, map[]), 1)) == VANILLA
    ensures Parse(host, ParseStack(host, stack)) == Some(ItemStack(ItemType(stack.item.material, map[]), 1))
    ensures ParseStack(host, ItemStack(ItemType(stack.item.material, map[]), 1)) == ParseStack(host, stack)
  {
    BareIdIsVanilla(host, name);
  }

  /** The documented strip example "minecraft:stone" -> "stone". */
  lemma StripNamespaceVanillaExample(host: Host)
    ensures Stripped(GetProvider(host, "minecraft:stone"), "minecraft:stone") == "stone"
  {
    var stone := "stone";
    assert ':' !in stone;
    BareIdIsVanilla(host, stone);
    assert "minecraft:" + stone == "minecraft:stone";
  }

  /** The documented strip example "nexo:golden_apple" -> "golden_apple", with Nexo loaded. */
  lemma StripNamespaceNexoExample(host: Host)
    requires IsLoaded(host, NEXO)
    ensures Stripped(GetProvider(host, "nexo:golden_apple"), "nexo:golden_apple") == "golden_apple"
  {
    var nexo, apple := "nexo", "golden_apple";
    var id := nexo + ":" + apple;
    assert id == "nexo:golden_apple";
    assert ':' !in apple;
    StartsWithOwnPrefix(nexo, apple);
    assert NEXO.Namespaces()[0] == nexo;
    assert IsUsingNamespace(host, NEXO, id);
    if StartsWith(id, "oraxen" + ":") {
      StartsWithFirst(id, "oraxen");
    }
    assert GetProvider(host, id) == NEXO;
    assert ':' in NEXO.Namespaces()[0] + ":" && ':' in NEXO.Namespaces()[1] + ":";
    NoColonNoOccurrence(NEXO.Namespaces()[0] + ":", apple);
    NoColonNoOccurrence(NEXO.Namespaces()[1] + ":", apple);
    StripPrefixed(NEXO, nexo, apple);
  }
}
