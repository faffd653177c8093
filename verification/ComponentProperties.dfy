/** `pullComponentProperties`: the annotated nodes of a page folded into a tree of component
    parts, each with base styles and per-variant styles, variants deduplicated against their own
    part's base styles. */
module ComponentProperties {
  import opened Wrappers
  import opened Seqs
  import opened Strings
  import opened Records

  /** A style map: style property name to token reference. Property order is not modelled. */
  type StyleMap = map<string, string>

  /** `ComponentPart`. */
  datatype Part = Part(parts: map<string, Part>, variants: map<string, StyleMap>, baseStyles: StyleMap)

  /** `{baseStyles: {}, variants: {}, parts: {}}`. */
  const EmptyPart := Part(map[], map[], map[])

  /** The decoded `componentState` annotation. */
  datatype ComponentState = ComponentState(key: string, variant: Option<string>)

  /** A document node: its `type`, its decoded `componentState` (when it has that annotation), its
      other annotations decoded, in `getPluginDataKeys` order (an annotation is present exactly when
      its stored text is non-empty), and its children when it has a `children` property. */
  datatype Node = Node(
    nodeType: string,
    componentState: Option<ComponentState>,
    pluginData: Record<string>,
    hasChildren: bool,
    children: seq<Node>)

  /** The annotation `gatherTokens` skips. */
  const ComponentStateKey := "componentState"

  // ---------------------------------------------------------------------------------------------
  // stripTokenPrefix

  /** One iteration: a leading `key + "."` is cut off (`replace` hits the first occurrence, which
      is the leading one). */
  function StripOne(key: string, s: string): string {
    if StartsWith(s, key + ".") then s[|key| + 1..] else s
  }

  /** `stripTokenPrefix(property, value)` with the names of the default `global` set as `keys`:
      each key's prefix is cut in turn, so the result is always a suffix of the value. */
  function StripPrefixes(keys: seq<string>, value: string): (r: string)
    ensures |r| <= |value| && r == value[|value| - |r|..]
  {
    if keys == [] then value
    else StripOne(keys[|keys| - 1], StripPrefixes(keys[..|keys| - 1], value))
  }

  /** A value starting with none of the prefixes comes back unchanged. */
  lemma {:induction false} StripWithoutPrefix(keys: seq<string>, value: string)
    requires forall i :: 0 <= i < |keys| ==> !StartsWith(value, keys[i] + ".")
    ensures StripPrefixes(keys, value) == value
  {
    if keys != [] {
      StripWithoutPrefix(keys[..|keys| - 1], value);
    }
  }

  /** The keys are applied in order, so a later key can strip what an earlier one uncovered. */
  lemma {:induction false} StripInOrder()
    ensures StripPrefixes(["colors"], "colors.primary") == "primary"
    ensures StripPrefixes(["colors", "primary"], "colors.primary.500") == "500"
    ensures StripPrefixes(["primary", "colors"], "colors.primary.500") == "primary.500"
  {
    assert StartsWith("colors.primary", "colors" + ".");
    assert StartsWith("colors.primary.500", "colors" + ".");
    assert StartsWith("primary.500", "primary" + ".");
    assert ["colors", "primary"][..1] == ["colors"];
    assert ["primary", "colors"][..1] == ["primary"];
    assert !StartsWith("colors.primary.500", "primary" + ".") by {
      assert "colors.primary.500"[0] != "primary."[0];
    }
    assert !StartsWith("primary.500", "colors" + ".") by {
      assert "primary.500"[0] != "colors."[0];
    }
  }

  /** The loop of `stripTokenPrefix`. */
  method StripTokenPrefix(keys: seq<string>, value: string) returns (res: string)
    ensures res == StripPrefixes(keys, value)
  {
    res := value;
    var i := 0;
    while i < |keys|
      invariant 0 <= i <= |keys|
      invariant res == StripPrefixes(keys[..i], value)
    {
      assert keys[..i + 1][..i] == keys[..i];
      var key := keys[i];
      if StartsWith(res, key + ".") {
        res := res[|key| + 1..];
      }
      i := i + 1;
    }
    assert keys[..i] == keys;
  }

  // ---------------------------------------------------------------------------------------------
  // findTextStyles

  /** `findTextStyles(node)`. The check of a child's `componentState` role reads `.role` off the
      raw annotation string, which is always `undefined`, so no child is ever skipped. */
  function TextStyles(n: Node): StyleMap {
    if !n.hasChildren then map[] else ChildrenStyles(map[], n.children)
  }

  /** The loop over the remaining children `cs`, starting from `acc`: a text child with a `fill`
      sets `textColor`, a text child is not searched further, any other child is searched and
      its result merged over `acc`. */
  function ChildrenStyles(acc: StyleMap, cs: seq<Node>): StyleMap
    decreases cs
  {
    if cs == [] then acc
    else
      var c := cs[0];
      var next :=
        if c.nodeType == "TEXT" then
          (match Get(c.pluginData, "fill")
           case Some(color) => acc["textColor" := color]
           case None => acc)
        else acc + TextStyles(c);
      ChildrenStyles(next, cs[1..])
  }

  /** The `fill` annotations of the text nodes the search reaches, depth first, in document order. */
  function TextFills(n: Node): seq<string> {
    if !n.hasChildren then [] else Fills(n.children)
  }

  /** `TextFills` over a list of children. */
  function Fills(cs: seq<Node>): seq<string> {
    if cs == [] then []
    else
      var c := cs[0];
      var here :=
        if c.nodeType == "TEXT" then
          (match Get(c.pluginData, "fill")
           case Some(color) => [color]
           case None => [])
        else TextFills(c);
      here + Fills(cs[1..])
  }

  /** `acc` with `textColor` set to the last of `fills`, if any. */
  function Latest(acc: StyleMap, fills: seq<string>): StyleMap {
    if fills == [] then acc else acc["textColor" := fills[|fills| - 1]]
  }

  lemma {:induction false} LatestAppend(acc: StyleMap, f: seq<string>, g: seq<string>)
    ensures Latest(Latest(acc, f), g) == Latest(acc, f + g)
  {
    if g != [] {
      assert (f + g)[|f + g| - 1] == g[|g| - 1];
    } else {
      assert f + g == f;
    }
  }

  /** `findTextStyles` yields at most `textColor`, set to the last fill found depth first:
      later text nodes win. */
  lemma {:induction false} TextStylesAreLastFill(n: Node)
    ensures TextStyles(n) == Latest(map[], TextFills(n))
    decreases n, 1
  {
    if n.hasChildren {
      ChildrenStylesAreLastFill(map[], n.children);
    }
  }

  /** The children loop applies the fills found in `cs` over `acc`. */
  lemma {:induction false} ChildrenStylesAreLastFill(acc: StyleMap, cs: seq<Node>)
    ensures ChildrenStyles(acc, cs) == Latest(acc, Fills(cs))
    decreases cs, 0
  {
    if cs != [] {
      var c := cs[0];
      var here :=
        if c.nodeType == "TEXT" then
          (match Get(c.pluginData, "fill")
           case Some(color) => [color]
           case None => [])
        else TextFills(c);
      var next :=
        if c.nodeType == "TEXT" then
          (match Get(c.pluginData, "fill")
           case Some(color) => acc["textColor" := color]
           case None => acc)
        else acc + TextStyles(c);
      if c.nodeType != "TEXT" {
        TextStylesAreLastFill(c);
        assert acc + Latest(map[], here) == Latest(acc, here);
      }
      assert next == Latest(acc, here);
      ChildrenStylesAreLastFill(next, cs[1..]);
      LatestAppend(acc, here, Fills(cs[1..]));
    }
  }

  /** A component nested inside another still gives its text colour to the outer one: the search
      does not stop at a child that carries its own `componentState`. */
  lemma {:induction false} NestedComponentTextIsCollected(color: string)
    ensures
      var text := Node("TEXT", None, [("fill", color)], false, []);
      var inner := Node("FRAME", Some(ComponentState("Button.Label", None)), [], true, [text]);
      var outer := Node("FRAME", Some(ComponentState("Button", None)), [], true, [inner]);
      TextStyles(outer) == map["textColor" := color]
  {
    var text := Node("TEXT", None, [("fill", color)], false, []);
    var inner := Node("FRAME", Some(ComponentState("Button.Label", None)), [], true, [text]);
    var outer := Node("FRAME", Some(ComponentState("Button", None)), [], true, [inner]);
    TextStylesAreLastFill(outer);
    assert Fills([text]) == [color];
    assert Fills([inner]) == [color];
  }

  /** `findTextStyles`: a loop over the children with a recursive call for every non-text child. */
  method FindTextStyles(n: Node) returns (res: StyleMap)
    ensures res == TextStyles(n)
    decreases n
  {
    res := map[];
    if n.hasChildren {
      var i := 0;
      while i < |n.children|
        invariant 0 <= i <= |n.children|
        invariant ChildrenStyles(res, n.children[i..]) == TextStyles(n)
      {
        var child := n.children[i];
        assert n.children[i..][1..] == n.children[i + 1..];
        if child.nodeType == "TEXT" {
          match Get(child.pluginData, "fill") {
            case Some(color) =>
              res := res["textColor" := color];
            case None =>
          }
        } else {
          var sub := FindTextStyles(child);
          res := res + sub;
        }
        i := i + 1;
      }
    }
  }

  // ---------------------------------------------------------------------------------------------
  // gatherTokens

  /** The annotations other than `componentState`, each with its prefixes stripped. */
  function Gathered(keys: seq<string>, data: Record<string>): StyleMap {
    if data == [] then map[]
    else
      var (k, v) := data[|data| - 1];
      var acc := Gathered(keys, data[..|data| - 1]);
      if k == ComponentStateKey then acc else acc[k := StripPrefixes(keys, v)]
  }

  /** `gatherTokens(node)`: the stripped annotations, with the text styles merged over them. */
  function GatherTokens(keys: seq<string>, n: Node): StyleMap {
    Gathered(keys, n.pluginData) + TextStyles(n)
  }

  /** One entry per annotation other than `componentState`, holding its stripped value. */
  lemma {:induction false} GatheredEntries(keys: seq<string>, data: Record<string>)
    requires Distinct(Keys(data))
    ensures forall k :: k in Gathered(keys, data) <==> k in Keys(data) && k != ComponentStateKey
    ensures forall k :: k in Gathered(keys, data) ==> Get(data, k).Some? && Gathered(keys, data)[k] == StripPrefixes(keys, Get(data, k).value)
  {
    if data != [] {
      var init, k, v := data[..|data| - 1], data[|data| - 1].0, data[|data| - 1].1;
      KeysInit(data);
      GatheredEntries(keys, init);
      assert data == init + [(k, v)];
      forall x ensures Get(data, x) == if x in Keys(init) then Get(init, x) else if x == k then Some(v) else None {
        GetAppend(init, k, v, x);
      }
    }
  }

  /** The gathered map: every annotation other than `componentState`, stripped, except that a
      `textColor` found among the text descendants wins. */
  lemma {:induction false} GatherTokensEntries(keys: seq<string>, n: Node)
    requires Distinct(Keys(n.pluginData))
    ensures var r := GatherTokens(keys, n);
      && (forall k :: k in r <==> (k in Keys(n.pluginData) && k != ComponentStateKey) || k in TextStyles(n))
      && (forall k :: k in TextStyles(n) ==> r[k] == TextStyles(n)[k])
      && (forall k :: k in r && k !in TextStyles(n) ==> r[k] == StripPrefixes(keys, Get(n.pluginData, k).value))
      && r.Keys <= Gathered(keys, n.pluginData).Keys + {"textColor"}
  {
    GatheredEntries(keys, n.pluginData);
    TextStylesAreLastFill(n);
  }

  /** `gatherTokens`: a loop over the annotation keys, then the text styles merged in. */
  method Gather(keys: seq<string>, n: Node) returns (tokens: StyleMap)
    ensures tokens == GatherTokens(keys, n)
  {
    tokens := map[];
    var data := n.pluginData;
    var i := 0;
    while i < |data|
      invariant 0 <= i <= |data|
      invariant tokens == Gathered(keys, data[..i])
    {
      assert data[..i + 1][..i] == data[..i];
      var (k, v) := data[i];
      if k != ComponentStateKey {
        var stripped := StripTokenPrefix(keys, v);
        tokens := tokens[k := stripped];
      }
      i := i + 1;
    }
    assert data[..i] == data;
    var text := FindTextStyles(n);
    tokens := tokens + text;
  }

  // ---------------------------------------------------------------------------------------------
  // Building the tree

  /** `if (variant)`: a present, non-empty variant label. */
  predicate Truthy(variant: Option<string>) {
    variant.Some? && variant.value != ""
  }

  /** The leaf step: `Object.assign` of the gathered tokens into `variants[variant]` (created empty
      when absent) or into `baseStyles`; every gathered property overwrites, every other stays. */
  function Merge(p: Part, variant: Option<string>, tokens: StyleMap): (r: Part)
    ensures r.parts == p.parts
    ensures Truthy(variant) ==>
      && r.baseStyles == p.baseStyles
      && r.variants.Keys == p.variants.Keys + {variant.value}
      && (forall w :: w in p.variants && w != variant.value ==> r.variants[w] == p.variants[w])
      && (forall k :: k in tokens ==> k in r.variants[variant.value] && r.variants[variant.value][k] == tokens[k])
      && (forall k :: k !in tokens && variant.value in p.variants && k in p.variants[variant.value] ==>
            k in r.variants[variant.value] && r.variants[variant.value][k] == p.variants[variant.value][k])
      && (forall k :: k in r.variants[variant.value] ==> k in tokens || (variant.value in p.variants && k in p.variants[variant.value]))
    ensures !Truthy(variant) ==>
      && r.variants == p.variants
      && (forall k :: k in r.baseStyles <==> k in tokens || k in p.baseStyles)
      && (forall k :: k in tokens ==> r.baseStyles[k] == tokens[k])
      && (forall k :: k !in tokens && k in p.baseStyles ==> r.baseStyles[k] == p.baseStyles[k])
  {
    if Truthy(variant) then
      var existing := if variant.value in p.variants then p.variants[variant.value] else map[];
      p.(variants := p.variants[variant.value := existing + tokens])
    else
      p.(baseStyles := p.baseStyles + tokens)
  }

  /** The walk down `path` (`key.split('.')`), creating missing parts empty and reusing existing
      ones, then the merge at the part reached. */
  function InsertAt(p: Part, path: seq<string>, variant: Option<string>, tokens: StyleMap): Part
    decreases |path|
  {
    if path == [] then Merge(p, variant, tokens)
    else
      var child := if path[0] in p.parts then p.parts[path[0]] else EmptyPart;
      p.(parts := p.parts[path[0] := InsertAt(child, path[1..], variant, tokens)])
  }

  /** The part reached by following `path` from `p`, if every segment exists. */
  function Lookup(p: Part, path: seq<string>): Option<Part>
    decreases |path|
  {
    if path == [] then Some(p)
    else if path[0] in p.parts then Lookup(p.parts[path[0]], path[1..])
    else None
  }

  /** The part at `path`, or an empty one. */
  function OrEmpty(o: Option<Part>): Part {
    if o.Some? then o.value else EmptyPart
  }

  /** `q` is a prefix of `path`. */
  predicate IsPrefix(q: seq<string>, path: seq<string>) {
    |q| <= |path| && path[..|q|] == q
  }

  /** After the walk the whole path exists, and the part at its end is the part that was there (or
      an empty one) with the tokens merged in. */
  lemma {:induction false} InsertReachesTarget(p: Part, path: seq<string>, variant: Option<string>, tokens: StyleMap)
    ensures Lookup(InsertAt(p, path, variant, tokens), path) == Some(Merge(OrEmpty(Lookup(p, path)), variant, tokens))
    decreases |path|
  {
    if path != [] {
      var child := if path[0] in p.parts then p.parts[path[0]] else EmptyPart;
      InsertReachesTarget(child, path[1..], variant, tokens);
      if path[0] !in p.parts {
        EmptyLookup(path[1..]);
      }
    }
  }

  /** Nothing lies below an empty part. */
  lemma {:induction false} EmptyLookup(path: seq<string>)
    ensures Lookup(EmptyPart, path) == if path == [] then Some(EmptyPart) else None
  {
  }

  /** The walk touches nothing off its path: every other part of the tree, existing or not, reads
      as before. Existing parts on the path are reused, so everything below them that is off the
      path survives too. */
  lemma {:induction false} InsertKeepsElsewhere(p: Part, path: seq<string>, variant: Option<string>, tokens: StyleMap, q: seq<string>)
    requires !IsPrefix(q, path)
    ensures Lookup(InsertAt(p, path, variant, tokens), q) == Lookup(p, q)
    decreases |path|
  {
    if path == [] {
      assert q != [];
    } else if q != [] {
      if q[0] == path[0] {
        var child := if path[0] in p.parts then p.parts[path[0]] else EmptyPart;
        assert !IsPrefix(q[1..], path[1..]);
        InsertKeepsElsewhere(child, path[1..], variant, tokens, q[1..]);
        if path[0] !in p.parts {
          EmptyLookup(q[1..]);
        }
      }
    }
  }

  /** The parts on the way down exist afterwards, and one that existed before keeps its own
      variants and base styles (it is reused, not replaced). */
  lemma {:induction false} InsertKeepsAncestors(p: Part, path: seq<string>, variant: Option<string>, tokens: StyleMap, n: nat)
    requires n < |path|
    ensures Lookup(InsertAt(p, path, variant, tokens), path[..n]).Some?
    ensures Lookup(p, path[..n]).Some? ==>
      var before, after := Lookup(p, path[..n]).value, Lookup(InsertAt(p, path, variant, tokens), path[..n]).value;
      after.variants == before.variants && after.baseStyles == before.baseStyles
    decreases |path|
  {
    var child := if path[0] in p.parts then p.parts[path[0]] else EmptyPart;
    if n > 0 {
      assert path[..n][1..] == path[1..][..n - 1];
      InsertKeepsAncestors(child, path[1..], variant, tokens, n - 1);
    }
  }

  /** What the loop does with one node: nodes without `componentState` are not visited. */
  function Step(keys: seq<string>, res: Part, n: Node): Part {
    match n.componentState
    case None => res
    case Some(cs) => InsertAt(res, Split(cs.key, '.'), cs.variant, GatherTokens(keys, n))
  }

  /** The tree after the loop over `nodes`. */
  function Build(keys: seq<string>, nodes: seq<Node>): Part {
    if nodes == [] then EmptyPart else Step(keys, Build(keys, nodes[..|nodes| - 1]), nodes[|nodes| - 1])
  }

  /** `key.split('.')` always has a first segment, so nothing is ever merged into the synthetic
      root: its variants and base styles stay empty and only its `parts` carry information. */
  lemma {:induction false} RootStaysBare(keys: seq<string>, nodes: seq<Node>)
    ensures Build(keys, nodes).variants == map[] && Build(keys, nodes).baseStyles == map[]
  {
    if nodes != [] {
      RootStaysBare(keys, nodes[..|nodes| - 1]);
    }
  }

  // ---------------------------------------------------------------------------------------------
  // dedupeVariants

  /** `variant[key] === part.baseStyles[key]` (a missing base entry is `undefined`, never equal). */
  predicate Repeats(variant: StyleMap, base: StyleMap, k: string)
    requires k in variant
  {
    k in base && base[k] == variant[k]
  }

  /** One variant with the entries that repeat the base deleted. */
  function DedupeStyles(variant: StyleMap, base: StyleMap): StyleMap {
    map k | k in variant && !Repeats(variant, base, k) :: variant[k]
  }

  /** `dedupeVariants(part)`: every variant of every part compared with that part's own base. */
  function Dedupe(p: Part): Part {
    Part(
      map k | k in p.parts :: Dedupe(p.parts[k]),
      map w | w in p.variants :: DedupeStyles(p.variants[w], p.baseStyles),
      p.baseStyles)
  }

  /** No variant entry anywhere in the tree repeats its own part's base. */
  predicate NoRepeats(p: Part) {
    && (forall w, k :: w in p.variants && k in p.variants[w] ==> !Repeats(p.variants[w], p.baseStyles, k))
    && (forall k :: k in p.parts ==> NoRepeats(p.parts[k]))
  }

  /** `q` has the shape of `p`, the same base styles everywhere, the same variant names, and each
      variant of `q` holds exactly the entries of `p`'s that do not repeat the base. */
  predicate DedupedFrom(q: Part, p: Part) {
    && q.baseStyles == p.baseStyles
    && q.parts.Keys == p.parts.Keys
    && q.variants.Keys == p.variants.Keys
    && (forall w, k :: w in p.variants && k in p.variants[w] ==>
          (k in q.variants[w] <==> !Repeats(p.variants[w], p.baseStyles, k)))
    && (forall w, k :: w in q.variants && k in q.variants[w] ==> k in p.variants[w] && q.variants[w][k] == p.variants[w][k])
    && (forall k :: k in p.parts ==> DedupedFrom(q.parts[k], p.parts[k]))
  }

  /** After deduplication no variant entry repeats its part's base. */
  lemma {:induction false} DedupeLeavesNoRepeats(p: Part)
    ensures NoRepeats(Dedupe(p))
  {
    forall k | k in p.parts ensures NoRepeats(Dedupe(p).parts[k]) {
      DedupeLeavesNoRepeats(p.parts[k]);
    }
  }

  /** Deduplication keeps the tree's shape, every base and every entry that differs from its base. */
  lemma {:induction false} DedupeKeepsTheRest(p: Part)
    ensures DedupedFrom(Dedupe(p), p)
  {
    forall k | k in p.parts ensures DedupedFrom(Dedupe(p).parts[k], p.parts[k]) {
      DedupeKeepsTheRest(p.parts[k]);
    }
  }

  /** A tree without repeats is its own deduplication, so deduplicating twice is deduplicating once. */
  lemma {:induction false} DedupeOfNoRepeats(p: Part)
    requires NoRepeats(p)
    ensures Dedupe(p) == p
  {
    forall k | k in p.parts ensures Dedupe(p.parts[k]) == p.parts[k] {
      DedupeOfNoRepeats(p.parts[k]);
    }
    assert Dedupe(p).parts == p.parts;
    forall w | w in p.variants ensures DedupeStyles(p.variants[w], p.baseStyles) == p.variants[w] {
    }
    assert Dedupe(p).variants == p.variants;
  }

  lemma {:induction false} DedupeIdempotent(p: Part)
    ensures Dedupe(Dedupe(p)) == Dedupe(p)
  {
    DedupeLeavesNoRepeats(p);
    DedupeOfNoRepeats(Dedupe(p));
  }

  /** An entry that repeats the part's base goes; the others stay. */
  lemma {:induction false} DedupeDropsRepeatedEntry()
    ensures Dedupe(Part(map[], map["hover" := map["color" := "a", "size" := "b"]], map["color" := "a"]))
         == Part(map[], map["hover" := map["size" := "b"]], map["color" := "a"])
  {
    assert DedupeStyles(map["color" := "a", "size" := "b"], map["color" := "a"]) == map["size" := "b"];
  }

  /** An entry whose value differs from the base stays. */
  lemma {:induction false} DedupeKeepsDifferingEntry()
    ensures Dedupe(Part(map[], map["hover" := map["color" := "c"]], map["color" := "a"]))
         == Part(map[], map["hover" := map["color" := "c"]], map["color" := "a"])
  {
    assert DedupeStyles(map["color" := "c"], map["color" := "a"]) == map["color" := "c"];
  }

  /** An entry that equals only an ancestor's base stays: each part is compared with its own base. */
  lemma {:induction false} DedupeIgnoresAncestorBase()
    ensures
      var child := Part(map[], map["hover" := map["color" := "a"]], map[]);
      Dedupe(Part(map["Item" := child], map[], map["color" := "a"])).parts["Item"] == child
  {
    var child := Part(map[], map["hover" := map["color" := "a"]], map[]);
    assert DedupeStyles(map["color" := "a"], map[]) == map["color" := "a"];
    assert Dedupe(child) == child;
  }

  /** The inner loop of `dedupeVariants`: each key of the variant is deleted when it repeats the
      base. */
  method DedupeVariantStyles(variant: StyleMap, base: StyleMap) returns (r: StyleMap)
    ensures r == DedupeStyles(variant, base)
  {
    r := variant;
    var todo := variant.Keys;
    while todo != {}
      invariant todo <= variant.Keys
      invariant forall k :: k in r <==> k in variant && (k !in todo ==> !Repeats(variant, base, k))
      invariant forall k :: k in r ==> r[k] == variant[k]
      decreases todo
    {
      var key :| key in todo;
      if key in base && variant[key] == base[key] {
        r := r - {key};
      }
      todo := todo - {key};
    }
  }

  /** The outer loop over the variants of one part, each deduplicated against the part's base. */
  method DedupePartVariants(p: Part) returns (variants: map<string, StyleMap>)
    ensures variants == Dedupe(p).variants
  {
    variants := p.variants;
    var names := p.variants.Keys;
    while names != {}
      invariant names <= p.variants.Keys && variants.Keys == p.variants.Keys
      invariant forall w :: w in variants ==>
        variants[w] == if w in names then p.variants[w] else DedupeStyles(p.variants[w], p.baseStyles)
      decreases names
    {
      var w :| w in names;
      var deduped := DedupeVariantStyles(variants[w], p.baseStyles);
      variants := variants[w := deduped];
      names := names - {w};
    }
  }

  /** `dedupeVariants(part)`: the variants of this part, then every child part recursively. */
  method DedupeVariants(p: Part) returns (r: Part)
    ensures r == Dedupe(p)
    decreases p
  {
    var variants := DedupePartVariants(p);
    var parts := p.parts;
    var children := p.parts.Keys;
    while children != {}
      invariant children <= p.parts.Keys && parts.Keys == p.parts.Keys
      invariant forall k :: k in parts ==> parts[k] == if k in children then p.parts[k] else Dedupe(p.parts[k])
      decreases children
    {
      var k :| k in children;
      var child := DedupeVariants(p.parts[k]);
      parts := parts[k := child];
      children := children - {k};
    }
    assert parts == Dedupe(p).parts;
    r := Part(parts, variants, p.baseStyles);
  }

  /** `pullComponentProperties()`, given the result of `findAll` and the names of the default
      `global` set: every annotated node is walked into the tree, the tree is deduplicated, and
      the root's `parts` are returned. */
  method PullComponentProperties(keys: seq<string>, nodes: seq<Node>) returns (parts: map<string, Part>)
    ensures parts == Dedupe(Build(keys, nodes)).parts
  {
    var res := EmptyPart;
    var i := 0;
    while i < |nodes|
      invariant 0 <= i <= |nodes|
      invariant res == Build(keys, nodes[..i])
    {
      assert nodes[..i + 1][..i] == nodes[..i];
      var node := nodes[i];
      match node.componentState {
        case None =>
        case Some(cs) =>
          var keyParts := Split(cs.key, '.');
          var tokens := Gather(keys, node);
          res := InsertAt(res, keyParts, cs.variant, tokens);
      }
      i := i + 1;
    }
    assert nodes[..i] == nodes;
    var deduped := DedupeVariants(res);
    parts := deduped.parts;
  }
}
