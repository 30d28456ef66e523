/**
 * The closed set of item providers (three custom-item plugins and vanilla) and
 * the per-provider rules: whether the provider is loaded, which ids it claims,
 * how it strips its namespaces, and its two translations id -> stack and
 * stack -> id.
 */
module ItemProviders {
  import opened HostWorld
  import opened Strings

  /** The providers, in declaration order; the order is the resolution priority. */
  datatype ItemProvider = ORAXEN | NEXO | ITEMSADDER | VANILLA {

    /** The name of the plugin backing the provider; empty for vanilla. */
    function PluginName(): string
    {
      match this
      case ORAXEN => "Oraxen"
      case NEXO => "Nexo"
      case ITEMSADDER => "ItemsAdder"
      case VANILLA => ""
    }

    /** The namespace prefixes the provider recognises; Nexo also accepts Oraxen's. */
    function Namespaces(): seq<string>
    {
      match this
      case ORAXEN => ["oraxen"]
      case NEXO => ["nexo", "oraxen"]
      case ITEMSADDER => ["itemsadder"]
      case VANILLA => ["minecraft"]
    }
  }

  /** The position of a provider in the declaration order. */
  function Ordinal(p: ItemProvider): nat
  {
    match p
    case ORAXEN => 0
    case NEXO => 1
    case ITEMSADDER => 2
    case VANILLA => 3
  }

  /** All providers in declaration order (the enum's `values()`). */
  function Values(): (ps: seq<ItemProvider>)
    ensures |ps| == 4
    ensures forall p: ItemProvider :: Ordinal(p) < |ps| && ps[Ordinal(p)] == p
    ensures ps[|ps| - 1] == VANILLA
  {
    [ORAXEN, NEXO, ITEMSADDER, VANILLA]
  }

  /**
   * A namespace list as the providers' lists are: every namespace non-empty and
   * free of the separator, and none a suffix of another one in the same list.
   */
  predicate WellFormedNamespaces(nss: seq<string>)
  {
    && (forall k :: 0 <= k < |nss| ==> nss[k] != "" && ':' !in nss[k])
    && (forall j, k :: 0 <= j < |nss| && 0 <= k < |nss| && nss[j] != nss[k] ==>
          !(|nss[j]| <= |nss[k]| && nss[k][|nss[k]| - |nss[j]|..] == nss[j]))
  }

  /** The provider table: Nexo claims its own namespace and Oraxen's, and every list is well formed. */
  lemma NamespaceTable()
    ensures NEXO.Namespaces() == ["nexo", "oraxen"] && ORAXEN.Namespaces()[0] in NEXO.Namespaces()
    ensures VANILLA.Namespaces() == ["minecraft"] && VANILLA.PluginName() == ""
    ensures forall p: ItemProvider :: |p.Namespaces()| > 0 && WellFormedNamespaces(p.Namespaces())
  {
    assert "oraxen"[2..] == "axen";
  }

  /** Vanilla is always available; every other provider exactly when its plugin is enabled. */
  predicate IsLoaded(host: Host, p: ItemProvider)
  {
    p == VANILLA || p.PluginName() in host.enabledPlugins
  }

  /**
   * Whether the provider claims `itemId`: never when unloaded, always for vanilla
   * (an id without a namespace is a vanilla id), otherwise when the id starts
   * with one of the provider's namespaces followed by ':'.
   */
  predicate IsUsingNamespace(host: Host, p: ItemProvider, itemId: string)
  {
    if !IsLoaded(host, p) then false
    else if p == VANILLA then true
    else exists k | 0 <= k < |p.Namespaces()| :: StartsWith(itemId, p.Namespaces()[k] + ":")
  }

  /**
   * Vanilla is always loaded and claims every id; a provider that is not loaded
   * claims no id, validates no id and translates nothing in either direction.
   */
  lemma LoadGates(host: Host, p: ItemProvider, itemId: string, stack: ItemStack)
    ensures IsLoaded(host, VANILLA) && IsUsingNamespace(host, VANILLA, itemId)
    ensures !IsLoaded(host, p) ==>
              && !IsUsingNamespace(host, p, itemId)
              && !IsValidItem(host, p, itemId)
              && ParseItem(host, p, itemId).None?
              && ParseStackId(host, p, stack).None?
  {
  }

  /** A loaded plugin claims every id that starts with one of its namespaces and ':'. */
  lemma ClaimsOwnNamespace(host: Host, p: ItemProvider, ns: string, local: string)
    requires IsLoaded(host, p) && ns in p.Namespaces()
    ensures IsUsingNamespace(host, p, ns + ":" + local)
  {
    var k :| 0 <= k < |p.Namespaces()| && p.Namespaces()[k] == ns;
    assert (ns + ":" + local)[..|ns + ":"|] == ns + ":";
  }

  /**
   * Removes every occurrence of each `ns + ":"`, one namespace after the other, in
   * list order; stripping never lengthens an id, and leaves it as it was when it
   * removes nothing.
   */
  function StripAll(s: string, namespaces: seq<string>): (r: string)
    ensures |r| <= |s|
    ensures |r| == |s| ==> r == s
    decreases |namespaces|
  {
    if namespaces == [] then s
    else StripAll(RemoveAll(s, namespaces[0] + ":"), namespaces[1..])
  }

  /** The id with the provider's namespaces stripped out. */
  function Stripped(p: ItemProvider, itemId: string): string
  {
    StripAll(itemId, p.Namespaces())
  }

  /** No `ns + ":"` of the provider occurs anywhere in `s`. */
  predicate NamespaceFree(p: ItemProvider, s: string)
  {
    forall k :: 0 <= k < |p.Namespaces()| ==> !Occurs(p.Namespaces()[k] + ":", s)
  }

  /** The loop of `stripNamespace`: `replace(ns + ":", "")` for each namespace in turn. */
  method StripNamespace(p: ItemProvider, itemId: string) returns (r: string)
    ensures r == Stripped(p, itemId)
  {
    var namespaces := p.Namespaces();
    var tempItemId := itemId;
    var k := 0;
    while k < |namespaces|
      invariant 0 <= k <= |namespaces|
      invariant StripAll(tempItemId, namespaces[k..]) == Stripped(p, itemId)
    {
      assert namespaces[k..][1..] == namespaces[k + 1..];
      tempItemId := RemoveAll(tempItemId, namespaces[k] + ":");
      k := k + 1;
    }
    r := tempItemId;
  }

  lemma {:induction false} StripAllAbsent(s: string, namespaces: seq<string>)
    requires forall k :: 0 <= k < |namespaces| ==> !Occurs(namespaces[k] + ":", s)
    ensures StripAll(s, namespaces) == s
  {
    if namespaces != [] {
      RemoveAllAbsent(s, namespaces[0] + ":");
      StripAllAbsent(s, namespaces[1..]);
    }
  }

  lemma {:induction false} StripAllPrefixed(ns: string, local: string, namespaces: seq<string>)
    requires ns in namespaces && WellFormedNamespaces(namespaces)
    requires forall k :: 0 <= k < |namespaces| ==> !Occurs(namespaces[k] + ":", local)
    ensures StripAll(ns + ":" + local, namespaces) == local
  {
    var n := namespaces[0];
    if n == ns {
      RemoveAllLeading(local, ns + ":");
      RemoveAllAbsent(local, ns + ":");
      assert ns + ":" + local == (ns + ":") + local;
      StripAllAbsent(local, namespaces[1..]);
    } else {
      var j :| 0 <= j < |namespaces| && namespaces[j] == ns;
      assert !Occurs(n + ":", local);
      PrefixAddsNoOccurrence(ns, n, local);
      RemoveAllAbsent(ns + ":" + local, n + ":");
      StripAllPrefixed(ns, local, namespaces[1..]);
    }
  }

  /**
   * An id that holds none of the provider's `ns + ":"` is returned unchanged.
   */
  lemma StripUnprefixed(p: ItemProvider, itemId: string)
    requires NamespaceFree(p, itemId)
    ensures Stripped(p, itemId) == itemId
  {
    StripAllAbsent(itemId, p.Namespaces());
  }

  /**
   * `ns + ":" + local` strips to `local` for every namespace `ns` of the provider,
   * when `local` holds none of the provider's `ns' + ":"`.
   */
  lemma StripPrefixed(p: ItemProvider, ns: string, local: string)
    requires ns in p.Namespaces()
    requires NamespaceFree(p, local)
    ensures Stripped(p, ns + ":" + local) == local
  {
    NamespaceTable();
    StripAllPrefixed(ns, local, p.Namespaces());
  }

  /** Every occurrence is stripped, not only a leading one: a doubled prefix goes too. */
  lemma StripRemovesRepeatedPrefix(local: string)
    requires NamespaceFree(VANILLA, local)
    ensures Stripped(VANILLA, "minecraft:minecraft:" + local) == local
  {
    NamespaceTable();
    var ns := VANILLA.Namespaces()[0] + ":";
    assert "minecraft:minecraft:" + local == ns + (ns + local);
    RemoveAllLeading(ns + local, ns);
    RemoveAllLeading(local, ns);
    assert !Occurs(ns, local);
    RemoveAllAbsent(local, ns);
  }

  /**
   * Each namespace of the list is stripped in turn: Nexo strips its own prefix and
   * then Oraxen's, so an id carrying both prefixes comes out bare.
   */
  lemma StripRemovesEveryNamespace(local: string)
    requires NamespaceFree(NEXO, local)
    ensures Stripped(NEXO, "nexo:oraxen:" + local) == local
  {
    NamespaceTable();
    var nss := NEXO.Namespaces();
    var nexo, oraxen := nss[0], nss[1];
    var rest := oraxen + ":" + local;
    assert "nexo:oraxen:" + local == (nexo + ":") + rest;
    assert !Occurs(nexo + ":", local) && !Occurs(oraxen + ":", local);
    PrefixAddsNoOccurrence(oraxen, nexo, local);
    RemoveAllLeading(rest, nexo + ":");
    RemoveAllAbsent(rest, nexo + ":");
    assert nss[1..] == ORAXEN.Namespaces();
    StripPrefixed(ORAXEN, oraxen, local);
  }

  /**
   * The namespaces are stripped in list order, which an id can tell apart: in
   * "oranexo:xen:" the pass for "nexo:" first leaves "oraxen:", and the pass for
   * "oraxen:" then removes that.
   */
  lemma StripFollowsListOrder(local: string)
    requires NamespaceFree(NEXO, local)
    ensures Stripped(NEXO, "oranexo:xen:" + local) == local
  {
    NamespaceTable();
    var nss := NEXO.Namespaces();
    var nexo, oraxen := nss[0], nss[1];
    var ora, xen := oraxen[..3], oraxen[3..];
    assert "oranexo:xen:" + local == ora + (nexo + ":") + (xen + ":" + local);
    RemoveAllSplice(ora, nexo, xen, local);
    assert ora + (xen + ":" + local) == (oraxen + ":") + local;
    RemoveAllLeading(local, oraxen + ":");
    RemoveAllAbsent(local, oraxen + ":");
    assert nss[1..] == [oraxen];
  }

  /**
   * ... and the order matters: taken the other way round, "oraxen:" is looked for
   * before the pass for "nexo:" has made it, and survives.
   */
  lemma StripInReverseOrderDiffers(local: string)
    requires NamespaceFree(NEXO, local)
    ensures StripAll("oranexo:xen:" + local, ["oraxen", "nexo"]) == "oraxen:" + local
  {
    NamespaceTable();
    var nss := NEXO.Namespaces();
    var nexo, oraxen := nss[0], nss[1];
    var ora, xen := oraxen[..3], oraxen[3..];
    var tail := xen + ":" + local;
    var id := ora + (nexo + ":") + tail;
    assert "oranexo:xen:" + local == id;
    // "oraxen:" occurs neither in the tail nor across the first separator
    var oranexo := ora + nexo;
    assert ':' !in oranexo && oranexo[1] != oraxen[0];
    assert oranexo[|oranexo| - |oraxen|..][0] == oranexo[1];
    PrefixesAddNoOccurrence(oranexo, xen, oraxen, local);
    assert id == oranexo + ":" + tail;
    RemoveAllAbsent(id, oraxen + ":");
    RemoveAllSplice(ora, nexo, xen, local);
    assert ora + tail == oraxen + ":" + local;
    assert ["oraxen", "nexo"][1..] == [nexo];
  }

  /** The integration that backs a custom (non-vanilla) provider. */
  function IntegrationOf(host: Host, p: ItemProvider): Integration
    requires p != VANILLA
  {
    match p
    case ORAXEN => host.oraxen
    case NEXO => host.nexo
    case ITEMSADDER => host.itemsAdder
  }

  /**
   * Whether the id names an existing item: false when the provider is not loaded,
   * otherwise the provider's existence check on the stripped id (a material
   * lookup for vanilla, a registry lookup for the plugins). The material lookup
   * here answers for every name; one that throws is not modelled.
   */
  predicate IsValidItem(host: Host, p: ItemProvider, itemId: string)
  {
    if !IsLoaded(host, p) then false
    else if p == VANILLA then host.matchMaterial(Stripped(p, itemId)).Some?
    else IntegrationOf(host, p).isRegistered(Stripped(p, itemId))
  }

  /**
   * Id -> stack. A stack comes back exactly when the provider is loaded, the id is
   * valid for it and (for a plugin) the plugin's build yields one; a vanilla stack
   * is a single item of the matched material, whose construction is taken never
   * to fail.
   */
  function ParseItem(host: Host, p: ItemProvider, itemId: string): (r: Option<ItemStack>)
    ensures r.Some? ==> IsLoaded(host, p) && IsValidItem(host, p, itemId)
    ensures r.Some? <==> IsValidItem(host, p, itemId) &&
                         (p == VANILLA || IntegrationOf(host, p).build(Stripped(p, itemId)).Some?)
    ensures p == VANILLA && r.Some? ==>
              r.value.amount == 1 && host.matchMaterial(Stripped(p, itemId)) == Some(r.value.item.material)
    ensures p != VANILLA && r.Some? ==> r == IntegrationOf(host, p).build(Stripped(p, itemId))
  {
    if !IsLoaded(host, p) then None
    else
      var cleanItemId := Stripped(p, itemId);
      if !IsValidItem(host, p, itemId) then None
      else if p == VANILLA then
        match host.matchMaterial(cleanItemId)
        case None => None
        case Some(material) => Some(ItemStack(ItemType(material, map[]), 1))
      else IntegrationOf(host, p).build(cleanItemId)
  }

  /**
   * Stack -> id. Nothing when the provider is not loaded; vanilla always answers
   * with the material's key; a plugin answers with its first namespace, ':' and
   * its own id for the item, or nothing when the item is not one of its own.
   */
  function ParseStackId(host: Host, p: ItemProvider, stack: ItemStack): (r: Option<string>)
    ensures !IsLoaded(host, p) ==> r.None?
    ensures p == VANILLA ==> r == Some(stack.item.material.key)
    ensures p != VANILLA ==>
              (r.Some? <==> IsLoaded(host, p) && IntegrationOf(host, p).idOf(stack.item).Some?)
    ensures p != VANILLA && r.Some? ==>
              r.value == p.Namespaces()[0] + ":" + IntegrationOf(host, p).idOf(stack.item).value
  {
    if !IsLoaded(host, p) then None
    else
      match p
      case VANILLA => Some(stack.item.material.key)
      case ORAXEN =>
        (match host.oraxen.idOf(stack.item)
         case None => None
         case Some(id) => Some("oraxen:" + id))
      case NEXO =>
        (match host.nexo.idOf(stack.item)
         case None => None
         case Some(id) => Some("nexo:" + id))
      case ITEMSADDER =>
        (match host.itemsAdder.idOf(stack.item)
         case None => None
         case Some(id) => Some("itemsadder:" + id))
  }

  /** The id a provider gives a stack is one the same provider claims. */
  lemma StackIdIsClaimed(host: Host, p: ItemProvider, stack: ItemStack)
    requires p != VANILLA && ParseStackId(host, p, stack).Some?
    ensures IsUsingNamespace(host, p, ParseStackId(host, p, stack).value)
  {
    var ns := p.Namespaces()[0];
    var local := IntegrationOf(host, p).idOf(stack.item).value;
    assert (ns + ":" + local)[..|ns + ":"|] == ns + ":";
    assert StartsWith(ns + ":" + local, p.Namespaces()[0] + ":");
  }
}
