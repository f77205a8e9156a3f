/**
 * Setup of rustdoc's HTML renderer (src/librustdoc/html/mod.rs): the
 * per-page `Context`, the crate-attribute scan that configures the page
 * layout, and the `Cache` that is filled before rendering — its initial
 * contents, where each extern crate's documentation lives, and which crate
 * documents each primitive type.
 *
 * The crawl that fills `impls`, `implementors`, `orphan_methods` and the
 * search index (`fold_crate`, `build_index`) is not part of this model.
 */
module RustdocHtml {
  import opened Wrappers

  type CrateNum = nat
  type NodeId = nat

  /** `ast::LOCAL_CRATE`: the crate being documented. */
  const LOCAL_CRATE: CrateNum := 0
  /** `ast::CRATE_NODE_ID`: the node of a crate's root module. */
  const CRATE_NODE_ID: NodeId := 0

  /** `ast::DefId`: a definition, identified by its crate and its node in that crate. */
  datatype DefId = DefId(krate: CrateNum, node: NodeId)

  /** The kinds of external items recorded by the analysis (`clean::TypeKind`). */
  datatype TypeKind =
    | TypeStruct | TypeEnum | TypeFunction | TypeTrait
    | TypeModule | TypeStatic | TypeVariant | TypeTypedef

  /** Rustdoc's item kinds (`item_type::ItemType`), as far as this file uses them. */
  datatype ItemType = Module | Struct | Enum | Function | Typedef | Static | Trait | Variant

  /** A primitive type (`clean::PrimitiveType`), identified by its name. */
  type Primitive = string

  /** `clean::Attribute`: `#[word]`, `#[name(items...)]` or `#[name = "value"]`. */
  datatype Attribute =
    | Word(word: string)
    | List(name: string, items: seq<Attribute>)
    | NameValue(name: string, value: string)

  /** An extern crate as the cleaned crate lists it (`clean::ExternalCrate`). */
  datatype ExternalCrate = ExternalCrate(name: string, attrs: seq<Attribute>, primitives: seq<Primitive>)

  /** The crate's root module; `docList` is what `doc_list()` yields: the items of its `#[doc(...)]` attribute. */
  datatype ModuleItem = ModuleItem(docList: Option<seq<Attribute>>)

  /** `clean::Crate`: the crate being documented. */
  datatype Crate = Crate(
    name: string,
    root: Option<ModuleItem>,
    externs: seq<(CrateNum, ExternalCrate)>,
    primitives: seq<Primitive>)

  /** Stand-in for `clean::Trait`: only the names of the trait's items are kept. */
  datatype TraitDoc = TraitDoc(itemNames: seq<string>)

  /**
   * The analysis results a compiler run leaves behind (`::analysiskey`); all
   * of it is absent when rustdoc runs without one.
   */
  datatype Analysis = Analysis(
    publicItems: set<NodeId>,
    externalPaths: map<DefId, (seq<string>, TypeKind)>,
    externalTraits: map<DefId, TraitDoc>,
    externalTyparams: map<DefId, string>,
    inlined: set<DefId>)

  /** `ExternalLocation`: where an extern crate's documentation can be found. */
  datatype ExternalLocation = Remote(url: string) | Local | Unknown

  /** `layout::Layout` (src/librustdoc/html/layout.rs). */
  datatype Layout = Layout(logo: string, favicon: string, krate: string, playgroundUrl: string)

  /** `Context`: the lightweight per-page rendering state, copied per task. */
  datatype Context = Context(
    current: seq<string>,
    rootPath: string,
    layout: Layout,
    sidebar: map<string, seq<string>>,
    includeSources: bool,
    renderRedirectPages: bool)

  /** Stand-ins for the crawl's records (`Impl`, `Implementor`, an orphan method); the crawl is not modelled. */
  datatype Impl = Impl(dox: Option<string>)
  datatype Implementor = Implementor(defId: DefId)
  datatype OrphanMethod = OrphanMethod(parent: NodeId, name: string)

  /** `IndexItem`: one entry of the search index. */
  datatype IndexItem = IndexItem(ty: ItemType, name: string, path: string, desc: string, parent: Option<DefId>)

  // ---------------------------------------------------------------------
  // Item kinds

  /** The analysis's item kind translated to rustdoc's: each kind maps to the item type of the same name. */
  function ItemTypeOf(k: TypeKind): (t: ItemType)
    ensures KindOf(t) == k
  {
    match k
    case TypeStruct => Struct
    case TypeEnum => Enum
    case TypeFunction => Function
    case TypeTrait => Trait
    case TypeModule => Module
    case TypeStatic => Static
    case TypeVariant => Variant
    case TypeTypedef => Typedef
  }

  /** The converse translation; it undoes `ItemTypeOf`. */
  function KindOf(t: ItemType): TypeKind {
    match t
    case Struct => TypeStruct
    case Enum => TypeEnum
    case Function => TypeFunction
    case Trait => TypeTrait
    case Module => TypeModule
    case Static => TypeStatic
    case Variant => TypeVariant
    case Typedef => TypeTypedef
  }

  /** No two kinds share an item type. */
  lemma ItemTypeOfInjective(a: TypeKind, b: TypeKind)
    requires ItemTypeOf(a) == ItemTypeOf(b)
    ensures a == b
  {
    calc {
      a;
      KindOf(ItemTypeOf(a));
      KindOf(ItemTypeOf(b));
      b;
    }
  }

  /** The analysis's external paths with each kind translated; names and keys are kept. */
  function TranslatePaths(external: map<DefId, (seq<string>, TypeKind)>): (paths: map<DefId, (seq<string>, ItemType)>)
    ensures paths.Keys == external.Keys
    ensures forall d :: d in paths ==> paths[d].0 == external[d].0 && KindOf(paths[d].1) == external[d].1
  {
    map d | d in external :: (external[d].0, ItemTypeOf(external[d].1))
  }

  /** `external_paths` as derived from `paths`: the same keys, each with its name and without its kind. */
  function NamesOf(paths: map<DefId, (seq<string>, ItemType)>): (names: map<DefId, seq<string>>)
    ensures names.Keys == paths.Keys
    ensures forall d :: d in names ==> names[d] == paths[d].0
  {
    map d | d in paths :: paths[d].0
  }

  // ---------------------------------------------------------------------
  // The crate-attribute scan

  /** The doc attributes of the crate's root module; none when there is no module or no `#[doc(...)]`. */
  function DocAttributes(krate: Crate): (attrs: seq<Attribute>)
    ensures krate.root.None? || krate.root.value.docList.None? ==> attrs == []
    ensures krate.root.Some? && krate.root.value.docList.Some? ==> attrs == krate.root.value.docList.value
  {
    match krate.root
    case None => []
    case Some(m) => m.docList.GetOr([])
  }

  /** The value of the last `key = "value"` attribute in `attrs`, if there is one. */
  function LastValue(attrs: seq<Attribute>, key: string): Option<string>
    decreases |attrs|
  {
    if attrs == [] then None
    else
      var last := attrs[|attrs| - 1];
      if last.NameValue? && last.name == key then Some(last.value) else LastValue(attrs[..|attrs| - 1], key)
  }

  /** Whether the word attribute `word` occurs in `attrs`. */
  predicate HasWord(attrs: seq<Attribute>, word: string)
    decreases |attrs|
  {
    attrs != [] && (attrs[|attrs| - 1] == Word(word) || HasWord(attrs[..|attrs| - 1], word))
  }

  /**
   * The context after the attribute scan: `html_favicon_url`, `html_logo_url`
   * and `html_playground_url` set the favicon, the logo and the playground
   * URL to their last value, and the word `html_no_source` turns source
   * links off for good.
   */
  function AfterScan(cx: Context, attrs: seq<Attribute>): Context {
    cx.(layout := cx.layout.(
          favicon := LastValue(attrs, "html_favicon_url").GetOr(cx.layout.favicon),
          logo := LastValue(attrs, "html_logo_url").GetOr(cx.layout.logo),
          playgroundUrl := LastValue(attrs, "html_playground_url").GetOr(cx.layout.playgroundUrl)),
        includeSources := cx.includeSources && !HasWord(attrs, "html_no_source"))
  }

  /** The scan changes only the layout's favicon, logo and playground URL and the source-link flag, which it never turns on. */
  lemma ScanFrame(cx: Context, attrs: seq<Attribute>)
    ensures var r := AfterScan(cx, attrs);
      && r.current == cx.current && r.rootPath == cx.rootPath && r.sidebar == cx.sidebar
      && r.renderRedirectPages == cx.renderRedirectPages && r.layout.krate == cx.layout.krate
      && (r.includeSources ==> cx.includeSources)
  {
  }

  /** The playground crate slot after the scan: the crate's name, written only if the slot was still unset. */
  function PlaygroundAfterScan(slot: Option<Option<string>>, attrs: seq<Attribute>, crateName: string): (r: Option<Option<string>>)
    ensures slot.Some? ==> r == slot
    ensures r != slot ==> r == Some(Some(crateName))
  {
    if slot.None? && LastValue(attrs, "html_playground_url").Some? then Some(Some(crateName)) else slot
  }

  /** Predicate of an attribute the scan acts on. */
  predicate Recognised(a: Attribute) {
    || (a.NameValue? && a.name in {"html_favicon_url", "html_logo_url", "html_playground_url"})
    || a == Word("html_no_source")
  }

  /** `LastValue` finds a value exactly when one is given, and it is the last one given. */
  lemma {:induction false} LastValueIsLastOccurrence(attrs: seq<Attribute>, key: string)
    ensures LastValue(attrs, key).Some? <==>
      exists i :: 0 <= i < |attrs| && attrs[i].NameValue? && attrs[i].name == key
    ensures LastValue(attrs, key).Some? ==>
      exists i :: 0 <= i < |attrs| && attrs[i] == NameValue(key, LastValue(attrs, key).value) &&
        forall j :: i < j < |attrs| ==> !(attrs[j].NameValue? && attrs[j].name == key)
    decreases |attrs|
  {
    if attrs != [] {
      var n := |attrs| - 1;
      var init := attrs[..n];
      LastValueIsLastOccurrence(init, key);
      assert forall i :: 0 <= i < n ==> init[i] == attrs[i];
      if !(attrs[n].NameValue? && attrs[n].name == key) {
        if LastValue(attrs, key).Some? {
          var i :| 0 <= i < |init| && init[i] == NameValue(key, LastValue(init, key).value) &&
            forall j :: i < j < |init| ==> !(init[j].NameValue? && init[j].name == key);
          assert attrs[i] == NameValue(key, LastValue(attrs, key).value);
        }
      }
    }
  }

  /** `HasWord` is membership. */
  lemma {:induction false} HasWordIsMembership(attrs: seq<Attribute>, word: string)
    ensures HasWord(attrs, word) <==> Word(word) in attrs
    decreases |attrs|
  {
    if attrs != [] {
      var n := |attrs| - 1;
      HasWordIsMembership(attrs[..n], word);
      assert attrs == attrs[..n] + [attrs[n]];
    }
  }

  /** An attribute the scan does not recognise leaves the scan's outcome as it was. */
  lemma OtherAttributesIgnored(cx: Context, slot: Option<Option<string>>, attrs: seq<Attribute>, a: Attribute, crateName: string)
    requires !Recognised(a)
    ensures AfterScan(cx, attrs + [a]) == AfterScan(cx, attrs)
    ensures PlaygroundAfterScan(slot, attrs + [a], crateName) == PlaygroundAfterScan(slot, attrs, crateName)
  {
    assert (attrs + [a])[..|attrs|] == attrs;
  }

  /** Once `html_no_source` appears, no attribute before or after it turns source links back on. */
  lemma NoSourceIsFinal(cx: Context, before: seq<Attribute>, after: seq<Attribute>)
    ensures !AfterScan(cx, before + [Word("html_no_source")] + after).includeSources
  {
    HasWordIsMembership(before + [Word("html_no_source")] + after, "html_no_source");
    assert (before + [Word("html_no_source")] + after)[|before|] == Word("html_no_source");
  }

  /** The playground crate is fixed by the first scan that sees `html_playground_url`; later scans keep it. */
  lemma PlaygroundSetOnce(slot: Option<Option<string>>, first: seq<Attribute>, second: seq<Attribute>, name1: string, name2: string)
    requires LastValue(first, "html_playground_url").Some?
    ensures PlaygroundAfterScan(PlaygroundAfterScan(slot, first, name1), second, name2) ==
      if slot.None? then Some(Some(name1)) else slot
  {
  }

  // ---------------------------------------------------------------------
  // Where extern crates and primitives are documented

  /** `extern_locations` entries written by the extern loop: each crate number maps to its last extern's location. */
  function ExternLocations(externs: seq<(CrateNum, ExternalCrate)>, locate: ExternalCrate -> ExternalLocation): (m: map<CrateNum, ExternalLocation>)
    ensures forall i :: 0 <= i < |externs| ==> externs[i].0 in m
    decreases |externs|
  {
    if externs == [] then map[]
    else
      var init := externs[..|externs| - 1];
      var last := externs[|externs| - 1];
      assert forall i :: 0 <= i < |init| ==> init[i] == externs[i];
      ExternLocations(init, locate)[last.0 := locate(last.1)]
  }

  /** `paths` entries written by the extern loop: each extern crate's root module, named after the crate. */
  function ExternRootPaths(externs: seq<(CrateNum, ExternalCrate)>): (m: map<DefId, (seq<string>, ItemType)>)
    ensures forall i :: 0 <= i < |externs| ==> DefId(externs[i].0, CRATE_NODE_ID) in m
    ensures forall d :: d in m ==> d.node == CRATE_NODE_ID && |m[d].0| == 1 && m[d].1 == Module
    decreases |externs|
  {
    if externs == [] then map[]
    else
      var init := externs[..|externs| - 1];
      var last := externs[|externs| - 1];
      assert forall i :: 0 <= i < |init| ==> init[i] == externs[i];
      ExternRootPaths(init)[DefId(last.0, CRATE_NODE_ID) := ([last.1.name], Module)]
  }

  /** One more round of the extern loop: the location of the `i`th extern is written over the earlier ones. */
  lemma ExternLoopStep(externs: seq<(CrateNum, ExternalCrate)>, locate: ExternalCrate -> ExternalLocation, i: int)
    requires 0 <= i < |externs|
    ensures ExternLocations(externs[..i + 1], locate) == ExternLocations(externs[..i], locate)[externs[i].0 := locate(externs[i].1)]
    ensures ExternRootPaths(externs[..i + 1]) == ExternRootPaths(externs[..i])[DefId(externs[i].0, CRATE_NODE_ID) := ([externs[i].1.name], Module)]
  {
    assert externs[..i + 1][..i] == externs[..i];
  }

  /** Overriding the empty map gives the overriding map. */
  lemma OverrideEmpty<K, V>(m: map<K, V>)
    ensures map[] + m == m
  {
  }

  /** Updating an overridden map updates the overriding side. */
  lemma OverrideThenUpdate<K, V>(a: map<K, V>, b: map<K, V>, k: K, v: V)
    ensures (a + b)[k := v] == a + b[k := v]
  {
  }

  /** No later extern in the list has the same crate number as the `i`th. */
  predicate LastOfItsNumber(externs: seq<(CrateNum, ExternalCrate)>, i: int)
    requires 0 <= i < |externs|
  {
    forall j :: i < j < |externs| ==> externs[j].0 != externs[i].0
  }

  /** The extern loop writes a location for exactly the crate numbers of the externs. */
  lemma {:induction false} ExternLocationsKeys(externs: seq<(CrateNum, ExternalCrate)>, locate: ExternalCrate -> ExternalLocation, c: CrateNum)
    ensures c in ExternLocations(externs, locate) <==> exists i :: 0 <= i < |externs| && externs[i].0 == c
    decreases |externs|
  {
    if externs != [] {
      var n := |externs| - 1;
      var init := externs[..n];
      ExternLocationsKeys(init, locate, c);
      if c != externs[n].0 && exists i :: 0 <= i < |externs| && externs[i].0 == c {
        var i :| 0 <= i < |externs| && externs[i].0 == c;
        assert init[i].0 == c;
      }
    }
  }

  /** Each crate's location is the one `locate` gives for the last extern with its number. */
  lemma {:induction false} ExternLocationsOfLast(externs: seq<(CrateNum, ExternalCrate)>, locate: ExternalCrate -> ExternalLocation, i: int)
    requires 0 <= i < |externs| && LastOfItsNumber(externs, i)
    ensures externs[i].0 in ExternLocations(externs, locate)
    ensures ExternLocations(externs, locate)[externs[i].0] == locate(externs[i].1)
    decreases |externs|
  {
    var n := |externs| - 1;
    if i < n {
      var init := externs[..n];
      assert LastOfItsNumber(init, i) by {
        assert forall j :: i < j < n ==> init[j] == externs[j];
      }
      ExternLocationsOfLast(init, locate, i);
    }
  }

  /** The extern loop registers a root module for exactly the crate numbers of the externs. */
  lemma {:induction false} ExternRootPathsKeys(externs: seq<(CrateNum, ExternalCrate)>, d: DefId)
    ensures d in ExternRootPaths(externs) <==> d.node == CRATE_NODE_ID && exists i :: 0 <= i < |externs| && externs[i].0 == d.krate
    decreases |externs|
  {
    if externs != [] {
      var n := |externs| - 1;
      var init := externs[..n];
      ExternRootPathsKeys(init, d);
      if d.krate != externs[n].0 && exists i :: 0 <= i < |externs| && externs[i].0 == d.krate {
        var i :| 0 <= i < |externs| && externs[i].0 == d.krate;
        assert init[i].0 == d.krate;
      }
    }
  }

  /** Each extern crate's root module is registered as a module whose path is the crate's name. */
  lemma {:induction false} ExternRootPathsOfLast(externs: seq<(CrateNum, ExternalCrate)>, i: int)
    requires 0 <= i < |externs| && LastOfItsNumber(externs, i)
    ensures DefId(externs[i].0, CRATE_NODE_ID) in ExternRootPaths(externs)
    ensures ExternRootPaths(externs)[DefId(externs[i].0, CRATE_NODE_ID)] == ([externs[i].1.name], Module)
    decreases |externs|
  {
    var n := |externs| - 1;
    if i < n {
      var init := externs[..n];
      assert LastOfItsNumber(init, i) by {
        assert forall j :: i < j < n ==> init[j] == externs[j];
      }
      ExternRootPathsOfLast(init, i);
    }
  }

  /** Every primitive in `prims` documented by crate `n`. */
  function Declare(prims: seq<Primitive>, n: CrateNum): (m: map<Primitive, CrateNum>)
    ensures m.Keys == set p | p in prims
    ensures forall p :: p in m ==> m[p] == n
  {
    map p | p in prims :: n
  }

  /**
   * The primitive locations written by the loop over the externs in reverse:
   * the first extern of the list is visited last, so its claims win.
   */
  function ExternPrimitiveLocations(externs: seq<(CrateNum, ExternalCrate)>): (m: map<Primitive, CrateNum>)
    ensures forall i, p :: 0 <= i < |externs| && p in externs[i].1.primitives ==> p in m
    decreases |externs|
  {
    if externs == [] then map[]
    else
      assert forall i :: 1 <= i < |externs| ==> externs[1..][i - 1] == externs[i];
      ExternPrimitiveLocations(externs[1..]) + Declare(externs[0].1.primitives, externs[0].0)
  }

  /** Visiting one more extern, backwards, adds that extern's primitives over the ones already written. */
  lemma ExternPrimitivesStep(externs: seq<(CrateNum, ExternalCrate)>, i: int)
    requires 0 <= i < |externs|
    ensures ExternPrimitiveLocations(externs[i..]) ==
      ExternPrimitiveLocations(externs[i + 1..]) + Declare(externs[i].1.primitives, externs[i].0)
  {
    assert externs[i..][1..] == externs[i + 1..];
  }

  /** Map override is associative. */
  lemma UnionAssoc<K, V>(a: map<K, V>, b: map<K, V>, c: map<K, V>)
    ensures (a + b) + c == a + (b + c)
  {
  }

  /** All primitive locations written: the externs' in reverse order, then the local crate's. */
  function PrimitiveLocations(externs: seq<(CrateNum, ExternalCrate)>, local: seq<Primitive>): (m: map<Primitive, CrateNum>)
    ensures forall p :: p in local ==> p in m && m[p] == LOCAL_CRATE
    ensures forall i, p :: 0 <= i < |externs| && p in externs[i].1.primitives ==> p in m
  {
    ExternPrimitiveLocations(externs) + Declare(local, LOCAL_CRATE)
  }

  /** The `i`th extern is the first in the list to declare primitive `p`. */
  predicate FirstDeclarer(externs: seq<(CrateNum, ExternalCrate)>, p: Primitive, i: int) {
    0 <= i < |externs| && p in externs[i].1.primitives &&
    forall j :: 0 <= j < i ==> p !in externs[j].1.primitives
  }

  lemma {:induction false} ExternPrimitivesFirstWins(externs: seq<(CrateNum, ExternalCrate)>, p: Primitive)
    ensures p in ExternPrimitiveLocations(externs) <==> exists i :: 0 <= i < |externs| && p in externs[i].1.primitives
    ensures forall i :: FirstDeclarer(externs, p, i) ==> ExternPrimitiveLocations(externs)[p] == externs[i].0
    decreases |externs|
  {
    if externs != [] {
      var rest := externs[1..];
      ExternPrimitivesFirstWins(rest, p);
      assert forall i :: 0 <= i < |rest| ==> rest[i] == externs[i + 1];
      if p !in externs[0].1.primitives {
        if exists i :: 0 <= i < |externs| && p in externs[i].1.primitives {
          var i :| 0 <= i < |externs| && p in externs[i].1.primitives;
          assert p in rest[i - 1].1.primitives;
        }
        forall i | FirstDeclarer(externs, p, i)
          ensures ExternPrimitiveLocations(externs)[p] == externs[i].0
        {
          assert FirstDeclarer(rest, p, i - 1);
        }
      }
    }
  }

  /**
   * The tie-break for primitive documentation: a primitive of the local crate
   * is documented locally; any other primitive by the earliest extern that
   * declares it; a primitive nobody declares gets no entry.
   */
  lemma PrimitiveTieBreak(externs: seq<(CrateNum, ExternalCrate)>, local: seq<Primitive>, p: Primitive)
    ensures p in local ==> p in PrimitiveLocations(externs, local) && PrimitiveLocations(externs, local)[p] == LOCAL_CRATE
    ensures p !in local ==>
      (p in PrimitiveLocations(externs, local) <==> exists i :: 0 <= i < |externs| && p in externs[i].1.primitives)
    ensures forall i :: p !in local && FirstDeclarer(externs, p, i) ==> PrimitiveLocations(externs, local)[p] == externs[i].0
  {
    ExternPrimitivesFirstWins(externs, p);
  }

  // ---------------------------------------------------------------------
  // The cache

  /** `Cache`: what rendering needs to know about the crate, built once and then shared by every page. */
  class Cache {
    var typarams: map<DefId, string>
    var impls: map<DefId, seq<Impl>>
    var paths: map<DefId, (seq<string>, ItemType)>
    var externalPaths: map<DefId, seq<string>>
    var traits: map<DefId, TraitDoc>
    var implementors: map<DefId, seq<Implementor>>
    var externLocations: map<CrateNum, ExternalLocation>
    var primitiveLocations: map<Primitive, CrateNum>
    var inlined: set<DefId>
    // used only while crawling
    var stack: seq<string>
    var parentStack: seq<DefId>
    var searchIndex: seq<IndexItem>
    var privmod: bool
    var publicItems: set<NodeId>
    var orphanMethods: seq<OrphanMethod>

    /**
     * What the analysis supplies (or nothing without one), with the crawl's
     * own collections still empty.  No step of `render` modelled here
     * touches these fields after the cache is built.
     */
    ghost predicate SeededFrom(analysis: Option<Analysis>)
      reads this
    {
      && impls == map[] && implementors == map[]
      && parentStack == [] && searchIndex == [] && orphanMethods == []
      && !privmod
      && publicItems == (if analysis.Some? then analysis.value.publicItems else {})
      && traits == (if analysis.Some? then analysis.value.externalTraits else map[])
      && typarams == (if analysis.Some? then analysis.value.externalTyparams else map[])
      && inlined == (if analysis.Some? then analysis.value.inlined else {})
    }

    /**
     * The cache as first built: `SeededFrom` the analysis, the analysis's
     * paths translated, `external_paths` mirroring them, and both location
     * maps still empty.
     */
    ghost predicate BuiltFrom(analysis: Option<Analysis>)
      reads this
    {
      && SeededFrom(analysis)
      && externLocations == map[] && primitiveLocations == map[]
      && paths == (if analysis.Some? then TranslatePaths(analysis.value.externalPaths) else map[])
      && externalPaths == NamesOf(paths)
    }

    constructor (analysis: Option<Analysis>)
      ensures BuiltFrom(analysis) && stack == []
      ensures analysis.None? ==> publicItems == {} && paths == map[] && externalPaths == map[]
      ensures analysis.None? ==> traits == map[] && typarams == map[] && inlined == {}
    {
      var paths := if analysis.Some? then TranslatePaths(analysis.value.externalPaths) else map[];
      impls := map[];
      externalPaths := NamesOf(paths);
      this.paths := paths;
      implementors := map[];
      stack := [];
      parentStack := [];
      searchIndex := [];
      externLocations := map[];
      primitiveLocations := map[];
      privmod := false;
      publicItems := if analysis.Some? then analysis.value.publicItems else {};
      orphanMethods := [];
      traits := if analysis.Some? then analysis.value.externalTraits else map[];
      typarams := if analysis.Some? then analysis.value.externalTyparams else map[];
      inlined := if analysis.Some? then analysis.value.inlined else {};
    }

    /**
     * The extern loop: records where each extern crate is documented and
     * registers its root module in `paths` (replacing any earlier entry).
     * `locate` stands for `extern_location`.
     */
    method RegisterExterns(externs: seq<(CrateNum, ExternalCrate)>, locate: ExternalCrate -> ExternalLocation)
      modifies this`externLocations, this`paths
      ensures externLocations == old(externLocations) + ExternLocations(externs, locate)
      ensures paths == old(paths) + ExternRootPaths(externs)
      ensures externalPaths == old(externalPaths)
      ensures unchanged(this`publicItems, this`traits, this`typarams, this`inlined, this`privmod)
      ensures unchanged(this`impls, this`implementors, this`parentStack, this`searchIndex, this`orphanMethods)
    {
      for i := 0 to |externs|
        invariant externLocations == old(externLocations) + ExternLocations(externs[..i], locate)
        invariant paths == old(paths) + ExternRootPaths(externs[..i])
      {
        var (n, e) := externs[i];
        ExternLoopStep(externs, locate, i);
        OverrideThenUpdate(old(externLocations), ExternLocations(externs[..i], locate), n, locate(e));
        externLocations := externLocations[n := locate(e)];
        var did := DefId(n, CRATE_NODE_ID);
        OverrideThenUpdate(old(paths), ExternRootPaths(externs[..i]), did, ([e.name], Module));
        paths := paths[did := ([e.name], Module)];
      }
      assert externs[..|externs|] == externs;
    }

    /** One primitive loop: each of `prims` is recorded as documented by crate `n`. */
    method DeclarePrimitives(prims: seq<Primitive>, n: CrateNum)
      modifies this`primitiveLocations
      ensures primitiveLocations == old(primitiveLocations) + Declare(prims, n)
    {
      for j := 0 to |prims|
        invariant primitiveLocations == old(primitiveLocations) + Declare(prims[..j], n)
      {
        primitiveLocations := primitiveLocations[prims[j] := n];
        assert prims[..j + 1] == prims[..j] + [prims[j]];
      }
      assert prims[..|prims|] == prims;
    }

    /**
     * The primitive loops: every extern's primitives, visiting the externs
     * from last to first, then the local crate's primitives.
     */
    method LocatePrimitives(externs: seq<(CrateNum, ExternalCrate)>, local: seq<Primitive>)
      modifies this`primitiveLocations
      ensures primitiveLocations == old(primitiveLocations) + PrimitiveLocations(externs, local)
      ensures unchanged(this`publicItems, this`traits, this`typarams, this`inlined, this`privmod)
      ensures unchanged(this`impls, this`implementors, this`parentStack, this`searchIndex, this`orphanMethods)
    {
      for i := |externs| downto 0
        invariant primitiveLocations == old(primitiveLocations) + ExternPrimitiveLocations(externs[i..])
      {
        DeclarePrimitives(externs[i].1.primitives, externs[i].0);
        ExternPrimitivesStep(externs, i);
        UnionAssoc(old(primitiveLocations), ExternPrimitiveLocations(externs[i + 1..]), Declare(externs[i].1.primitives, externs[i].0));
      }
      assert externs[0..] == externs;
      DeclarePrimitives(local, LOCAL_CRATE);
      UnionAssoc(old(primitiveLocations), ExternPrimitiveLocations(externs), Declare(local, LOCAL_CRATE));
    }
  }

  // ---------------------------------------------------------------------
  // The renderer

  /** `HtmlRenderer`: the crate to document and the context pages start from. */
  class HtmlRenderer {
    var krate: Crate
    var cx: Context
    /** The process-wide `markdown::playground_krate` slot, set at most once. */
    var playgroundKrate: Option<Option<string>>

    /** `HtmlRenderer::new`: a context at the root, with source links on and a layout naming only the crate. */
    constructor (krate: Crate)
      ensures this.krate == krate && playgroundKrate.None?
      ensures cx.current == [] && cx.rootPath == "" && cx.sidebar == map[]
      ensures cx.layout == Layout("", "", krate.name, "")
      ensures cx.includeSources && !cx.renderRedirectPages
    {
      this.krate := krate;
      cx := Context([], "", Layout("", "", krate.name, ""), map[], true, false);
      playgroundKrate := None;
    }

    /** The attribute scan at the start of `render`. */
    method ScanAttributes()
      modifies this`cx, this`playgroundKrate
      ensures cx == AfterScan(old(cx), DocAttributes(krate))
      ensures playgroundKrate == PlaygroundAfterScan(old(playgroundKrate), DocAttributes(krate), krate.name)
    {
      match krate.root {
        case Some(m) =>
          var attrs := m.docList.GetOr([]);
          for i := 0 to |attrs|
            invariant cx == AfterScan(old(cx), attrs[..i])
            invariant playgroundKrate == PlaygroundAfterScan(old(playgroundKrate), attrs[..i], krate.name)
          {
            assert attrs[..i + 1][..i] == attrs[..i];
            match attrs[i] {
              case NameValue(x, s) =>
                if x == "html_favicon_url" {
                  cx := cx.(layout := cx.layout.(favicon := s));
                } else if x == "html_logo_url" {
                  cx := cx.(layout := cx.layout.(logo := s));
                } else if x == "html_playground_url" {
                  cx := cx.(layout := cx.layout.(playgroundUrl := s));
                  var name := krate.name;
                  if playgroundKrate.None? {
                    playgroundKrate := Some(Some(name));
                  }
                }
              case Word(x) =>
                if x == "html_no_source" {
                  cx := cx.(includeSources := false);
                }
              case List(_, _) =>
            }
          }
          assert attrs[..|attrs|] == attrs;
        case None =>
          assert AfterScan(old(cx), []) == old(cx);
      }
    }

    /** The cache as built by `render`, with the crate's name pushed as the first path component. */
    method NewCache(analysis: Option<Analysis>) returns (cache: Cache)
      ensures fresh(cache)
      ensures cache.BuiltFrom(analysis) && cache.stack == [krate.name]
    {
      cache := new Cache(analysis);
      cache.stack := cache.stack + [krate.name];
    }

    /**
     * The steps of `render` before the search index is built, in order: the
     * attribute scan, the cache, the extern loop and the primitive loops.
     * The crawl, which runs between the cache and the extern loop, is not
     * modelled, so here it contributes nothing.
     */
    method PrepareRender(analysis: Option<Analysis>, locate: ExternalCrate -> ExternalLocation) returns (cache: Cache)
      modifies this`cx, this`playgroundKrate
      ensures cx == AfterScan(old(cx), DocAttributes(krate))
      ensures playgroundKrate == PlaygroundAfterScan(old(playgroundKrate), DocAttributes(krate), krate.name)
      ensures fresh(cache) && cache.stack == [krate.name]
      ensures cache.externLocations == ExternLocations(krate.externs, locate)
      ensures cache.paths == (if analysis.Some? then TranslatePaths(analysis.value.externalPaths) else map[]) + ExternRootPaths(krate.externs)
      ensures cache.externalPaths == (if analysis.Some? then NamesOf(TranslatePaths(analysis.value.externalPaths)) else map[])
      ensures cache.primitiveLocations == PrimitiveLocations(krate.externs, krate.primitives)
      ensures cache.SeededFrom(analysis)
    {
      ScanAttributes();
      cache := NewCache(analysis);
      ghost var built := cache.paths;
      assert cache.externLocations == map[] && cache.primitiveLocations == map[];
      assert cache.externalPaths == NamesOf(built);
      cache.RegisterExterns(krate.externs, locate);
      cache.LocatePrimitives(krate.externs, krate.primitives);
      OverrideEmpty(ExternLocations(krate.externs, locate));
      OverrideEmpty(PrimitiveLocations(krate.externs, krate.primitives));
    }
  }
}
