/**
 * The decision procedure shared by both `getGroupedClassName` overrides:
 * parse "group/class", consult the per-object cache, look for a rewrite
 * (letting observers change the class first), fall back to the deprecated
 * node, otherwise synthesise the name from the group's class prefix.
 */
module ClassResolution {
  import opened Wrappers
  import opened ConfigTree
  import Strings

  const RewriteEvent := "before_configxml_rewrite"

  /** A parsed class identifier together with the cache bucket it belongs to. */
  datatype ClassRef = ClassRef(root: string, group: string, cls: Option<string>)

  /**
   * Parses `classId` as "group/class" after trimming it: the group is the text
   * before the first slash, the class the text between the first and second
   * slash (absent when missing or empty); the root defaults to
   * "global/<groupType>s" when none, or an empty one, is given.
   */
  function ParseClassId(groupType: string, classId: string, groupRootNode: Option<string>): (r: ClassRef)
    ensures groupRootNode.Some? && groupRootNode.value != "" ==> r.root == groupRootNode.value
    ensures groupRootNode.None? || groupRootNode.value == "" ==> r.root == "global/" + groupType + "s"
    ensures (r.group, r.cls) == SplitClassId(Strings.Trim(classId))
  {
    var root := if groupRootNode.None? || groupRootNode.value == "" then "global/" + groupType + "s" else groupRootNode.value;
    var (group, cls) := SplitClassId(Strings.Trim(classId));
    ClassRef(root, group, cls)
  }

  /**
   * `explode('/', t)` read as group and class: the group is the slash-free
   * prefix of `t` ending at the first slash, the class the non-empty,
   * slash-free text after it up to the next slash or the end, absent when that
   * text is empty.
   */
  function SplitClassId(t: string): (r: (string, Option<string>))
    ensures '/' !in r.0 && r.0 <= t
    ensures |t| > |r.0| ==> t[|r.0|] == '/'
    ensures r.1.Some? ==>
      var c := r.1.value;
      var end := |r.0| + 1 + |c|;
      c != "" && '/' !in c && end <= |t| && t[|r.0| + 1..end] == c && (end == |t| || t[end] == '/')
    ensures r.1.None? ==> |t| <= |r.0| + 1 || t[|r.0| + 1] == '/'
  {
    var classArr := Strings.Explode(t, '/');
    SegmentShape(t);
    (classArr[0], if |classArr| > 1 && classArr[1] != "" then Some(classArr[1]) else None)
  }

  /** Where the first two segments of `explode('/', t)` sit in `t`. */
  lemma SegmentShape(t: string)
    ensures var parts := Strings.Explode(t, '/');
      && parts[0] <= t
      && (|t| > |parts[0]| <==> |parts| > 1)
      && (|parts| > 1 ==>
        var end := |parts[0]| + 1 + |parts[1]|;
        && t[|parts[0]|] == '/'
        && end <= |t| && t[|parts[0]| + 1..end] == parts[1]
        && (end == |t| <==> |parts| == 2)
        && (end < |t| ==> t[end] == '/'))
  {
    var parts := Strings.Explode(t, '/');
    Strings.JoinShape(parts, '/');
    if |parts| > 1 {
      var rest := parts[1..];
      Strings.JoinShape(rest, '/');
      var tail := t[|parts[0]| + 1..];
      assert tail == Strings.Join(rest, '/');
      assert t[|parts[0]| + 1..|parts[0]| + 1 + |parts[1]|] == tail[..|parts[1]|];
      if |rest| > 1 {
        assert t[|parts[0]| + 1 + |parts[1]|] == tail[|parts[1]|];
      }
    }
  }

  /** `$this->_xml->global->{$groupType.'s'}->{$group}`. */
  function GroupNode(xml: Node, groupType: string, group: string): Option<Node> {
    Descend(xml, ["global", groupType + "s", group])
  }

  /** `$config->rewrite->$class`, which never exists for a null or empty class. */
  function RewriteNode(config: Option<Node>, cls: Option<string>): Option<Node> {
    if config.Some? && cls.Some? && cls.value != "" then Descend(config.value, ["rewrite", cls.value]) else None
  }

  predicate HasRewrite(xml: Node, groupType: string, group: string, cls: Option<string>) {
    RewriteNode(GroupNode(xml, groupType, group), cls).Some?
  }

  /** The rewrite under the group named by the group's `deprecatedNode`, if any. */
  function DeprecatedRewrite(xml: Node, groupType: string, config: Option<Node>, cls: Option<string>): Option<Node> {
    if config.Some? && "deprecatedNode" in config.value.children then
      RewriteNode(GroupNode(xml, groupType, config.value.children["deprecatedNode"].text), cls)
    else None
  }

  /** The rewritten class name, "" when none was found. */
  function FoundRewrite(xml: Node, groupType: string, group: string, cls: Option<string>): string {
    var config := GroupNode(xml, groupType, group);
    match RewriteNode(config, cls)
    case Some(r) => r.text
    case None =>
      match DeprecatedRewrite(xml, groupType, config, cls)
      case Some(r) => r.text
      case None => ""
  }

  /** The group's declared class prefix (`getClassName()`), "" when it has none. */
  function ClassPrefix(config: Option<Node>): string {
    if config.Some? && "class" in config.value.children then config.value.children["class"].text else ""
  }

  /** The prefix, or "mage_<group>_<groupType>" when the group declares none. */
  function BaseName(config: Option<Node>, group: string, groupType: string): (b: string)
    ensures b != ""
  {
    var p := ClassPrefix(config);
    if p != "" then p else "mage_" + group + "_" + groupType
  }

  /** The name synthesised when nothing is rewritten; the class is appended only when present. */
  function Synthesised(config: Option<Node>, group: string, groupType: string, cls: Option<string>): string {
    var suffix := if cls.Some? && cls.value != "" then "_" + cls.value else "";
    Strings.UcWords(BaseName(config, group, groupType) + suffix)
  }

  /** The class name for an uncached lookup, once observers have settled the class. */
  function Finalize(xml: Node, groupType: string, group: string, cls: Option<string>): (name: string)
    ensures name != ""
  {
    var found := FoundRewrite(xml, groupType, group, cls);
    if found != "" then found else Synthesised(GroupNode(xml, groupType, group), group, groupType, cls)
  }

  /** Cache coordinates `[groupRootNode][group][class]`; a null class is stored under "". */
  datatype CacheKey = CacheKey(root: string, group: string, cls: string)

  function KeyClass(cls: Option<string>): string {
    if cls.Some? then cls.value else ""
  }

  /** What one call returns, the cache it leaves, and whether it dispatched the event. */
  datatype Outcome = Outcome(name: string, cache: map<CacheKey, string>, fired: bool)

  /** The class the rest of the call works with: the observers' answer when the event fired. */
  function EffectiveClass(xml: Node, groupType: string, ref: ClassRef, post: Option<string>): Option<string> {
    if HasRewrite(xml, groupType, ref.group, ref.cls) then post else ref.cls
  }

  /**
   * One `getGroupedClassName` call against `cache`; `post` is the class the
   * payload holds after dispatch, consulted only when the event fires.
   */
  function Resolve(cache: map<CacheKey, string>, xml: Node, groupType: string, ref: ClassRef, post: Option<string>): Outcome {
    var key := CacheKey(ref.root, ref.group, KeyClass(ref.cls));
    if key in cache then Outcome(cache[key], cache, false)
    else
      var cls := EffectiveClass(xml, groupType, ref, post);
      var name := Finalize(xml, groupType, ref.group, cls);
      Outcome(name, cache[CacheKey(ref.root, ref.group, KeyClass(cls)) := name], HasRewrite(xml, groupType, ref.group, ref.cls))
  }

  /**
   * The second half of `getGroupedClassName`: the rewrite for the settled
   * class, then the deprecated group's, then the synthesised name.
   */
  method ClassNameFor(xml: Node, groupType: string, group: string, config: Option<Node>, cls: Option<string>) returns (className: string)
    requires config == GroupNode(xml, groupType, group)
    ensures className == Finalize(xml, groupType, group, cls)
  {
    className := "";
    var rewrite := RewriteNode(config, cls);
    if rewrite.Some? {
      className := rewrite.value.text;
    } else if config.Some? && "deprecatedNode" in config.value.children {
      var deprecatedNode := config.value.children["deprecatedNode"].text;
      var configOld := GroupNode(xml, groupType, deprecatedNode);
      var oldRewrite := RewriteNode(configOld, cls);
      if oldRewrite.Some? {
        className := oldRewrite.value.text;
      }
    }

    assert className == FoundRewrite(xml, groupType, group, cls);

    if className == "" {
      className := ClassPrefix(config);
      if className == "" {
        className := "mage_" + group + "_" + groupType;
      }
      assert className == BaseName(config, group, groupType);
      if cls.Some? && cls.value != "" {
        className := className + "_" + cls.value;
      }
      ghost var unformatted := className;
      className := Strings.UcWords(className);
      assert className == Synthesised(config, group, groupType, cls) by {
        assert unformatted == BaseName(config, group, groupType) + (if cls.Some? && cls.value != "" then "_" + cls.value else "");
      }
    }
  }

  // ---- Properties of the name chosen for an uncached call ----

  /** An existing, non-empty rewrite for the settled class is the answer, verbatim. */
  lemma RewriteWinsVerbatim(xml: Node, groupType: string, group: string, cls: Option<string>)
    requires HasRewrite(xml, groupType, group, cls)
    requires RewriteNode(GroupNode(xml, groupType, group), cls).value.text != ""
    ensures Finalize(xml, groupType, group, cls) == RewriteNode(GroupNode(xml, groupType, group), cls).value.text
  {
  }

  /** The deprecated node is probed only when the group has no rewrite for the class. */
  lemma DeprecatedOnlyWithoutRewrite(xml: Node, groupType: string, group: string, cls: Option<string>)
    ensures HasRewrite(xml, groupType, group, cls) ==>
      var r := RewriteNode(GroupNode(xml, groupType, group), cls).value.text;
      Finalize(xml, groupType, group, cls) == if r != "" then r else Synthesised(GroupNode(xml, groupType, group), group, groupType, cls)
    ensures !HasRewrite(xml, groupType, group, cls) ==>
      var d := DeprecatedRewrite(xml, groupType, GroupNode(xml, groupType, group), cls);
      d.Some? && d.value.text != "" ==> Finalize(xml, groupType, group, cls) == d.value.text
  {
  }

  /** `uc_words` works word by word: it distributes over an `_` join. */
  lemma UcWordsJoin(a: string, b: string)
    ensures Strings.UcWords(a + "_" + b) == Strings.UcWords(a) + "_" + Strings.UcWords(b)
  {
    var s := a + "_" + b;
    var r := Strings.UcWords(a) + "_" + Strings.UcWords(b);
    forall k | 0 <= k < |s|
      ensures Strings.UcWords(s)[k] == r[k]
    {
      if k > |a| {
        assert s[k] == b[k - |a| - 1];
        assert k - 1 > |a| ==> s[k - 1] == b[k - |a| - 2];
      } else if k < |a| {
        assert s[k] == a[k];
        assert k > 0 ==> s[k - 1] == a[k - 1];
      }
    }
  }

  /** A single word only has its first letter upper-cased. */
  lemma UcWordsWord(w: string)
    requires w != [] && '_' !in w
    ensures Strings.UcWords(w) == [Strings.Upper(w[0])] + w[1..]
  {
    var r := [Strings.Upper(w[0])] + w[1..];
    forall k | 0 <= k < |w|
      ensures Strings.UcWords(w)[k] == r[k]
    {
      assert k > 0 ==> w[k - 1] in w;
    }
  }

  /**
   * With no rewrite found, the name is the upper-cased base name, followed by
   * `_` and the upper-cased class when there is a class.
   */
  lemma SynthesisedName(xml: Node, groupType: string, group: string, cls: Option<string>)
    requires FoundRewrite(xml, groupType, group, cls) == ""
    ensures var base := Strings.UcWords(BaseName(GroupNode(xml, groupType, group), group, groupType));
      Finalize(xml, groupType, group, cls)
        == if cls.Some? && cls.value != "" then base + "_" + Strings.UcWords(cls.value) else base
  {
    SynthesisedShape(GroupNode(xml, groupType, group), group, groupType, cls);
  }

  /** The synthesised name splits at the `_` before the class. */
  lemma SynthesisedShape(config: Option<Node>, group: string, groupType: string, cls: Option<string>)
    ensures var base := Strings.UcWords(BaseName(config, group, groupType));
      Synthesised(config, group, groupType, cls)
        == if cls.Some? && cls.value != "" then base + "_" + Strings.UcWords(cls.value) else base
  {
    var base := BaseName(config, group, groupType);
    if cls.Some? && cls.value != "" {
      var c := cls.value;
      assert Synthesised(config, group, groupType, cls) == Strings.UcWords(base + ("_" + c));
      assert base + ("_" + c) == base + "_" + c;
      UcWordsJoin(base, c);
    } else {
      assert Synthesised(config, group, groupType, cls) == Strings.UcWords(base + "");
      assert base + "" == base;
    }
  }

  /** A vetoed (null or empty) class never finds a rewrite and yields the un-suffixed group name. */
  lemma VetoDropsSuffix(xml: Node, groupType: string, group: string, cls: Option<string>)
    requires cls.None? || cls.value == ""
    ensures Finalize(xml, groupType, group, cls) == Strings.UcWords(BaseName(GroupNode(xml, groupType, group), group, groupType))
  {
    SynthesisedName(xml, groupType, group, cls);
  }

  // ---- Properties of the cache ----

  /** A hit returns the stored name, leaves the cache alone and dispatches nothing. */
  lemma CacheHit(cache: map<CacheKey, string>, xml: Node, groupType: string, ref: ClassRef, post: Option<string>)
    requires CacheKey(ref.root, ref.group, KeyClass(ref.cls)) in cache
    ensures Resolve(cache, xml, groupType, ref, post) == Outcome(cache[CacheKey(ref.root, ref.group, KeyClass(ref.cls))], cache, false)
  {
  }

  /** The event is dispatched exactly when the lookup misses and the group rewrites the parsed class. */
  lemma FiresIffMissWithRewrite(cache: map<CacheKey, string>, xml: Node, groupType: string, ref: ClassRef, post: Option<string>)
    ensures Resolve(cache, xml, groupType, ref, post).fired
      <==> CacheKey(ref.root, ref.group, KeyClass(ref.cls)) !in cache && HasRewrite(xml, groupType, ref.group, ref.cls)
  {
  }

  /**
   * A miss stores the name under the settled (post-event) class and changes
   * no other entry.
   */
  lemma MissStoresUnderSettledClass(cache: map<CacheKey, string>, xml: Node, groupType: string, ref: ClassRef, post: Option<string>)
    requires CacheKey(ref.root, ref.group, KeyClass(ref.cls)) !in cache
    ensures var cls := EffectiveClass(xml, groupType, ref, post);
      var o := Resolve(cache, xml, groupType, ref, post);
      var stored := CacheKey(ref.root, ref.group, KeyClass(cls));
      && o.name == Finalize(xml, groupType, ref.group, cls)
      && stored in o.cache && o.cache[stored] == o.name
      && (forall k :: k != stored ==> (k in o.cache <==> k in cache))
      && (forall k :: k != stored && k in cache ==> o.cache[k] == cache[k])
  {
  }

  /** After a miss, repeating the call hits the cache exactly when the observers kept the class. */
  lemma RepeatHitsIffClassKept(cache: map<CacheKey, string>, xml: Node, groupType: string, ref: ClassRef, post: Option<string>)
    requires CacheKey(ref.root, ref.group, KeyClass(ref.cls)) !in cache
    ensures CacheKey(ref.root, ref.group, KeyClass(ref.cls)) in Resolve(cache, xml, groupType, ref, post).cache
      <==> KeyClass(EffectiveClass(xml, groupType, ref, post)) == KeyClass(ref.cls)
  {
  }

  /**
   * Repeating a call with the same observers' answer returns the same name and
   * leaves the cache as the first call left it, whether or not it hits.
   */
  lemma RepeatIsStable(cache: map<CacheKey, string>, xml: Node, groupType: string, ref: ClassRef, post: Option<string>)
    ensures var o1 := Resolve(cache, xml, groupType, ref, post);
      var o2 := Resolve(o1.cache, xml, groupType, ref, post);
      o2.name == o1.name && o2.cache == o1.cache
  {
    var key := CacheKey(ref.root, ref.group, KeyClass(ref.cls));
    var o1 := Resolve(cache, xml, groupType, ref, post);
    if key !in cache {
      var cls := EffectiveClass(xml, groupType, ref, post);
      var stored := CacheKey(ref.root, ref.group, KeyClass(cls));
      if key !in o1.cache {
        assert o1.cache[stored := o1.name] == o1.cache;
      }
    }
  }

  // ---- Worked scenarios ----

  /** global/models/catalog rewrites `product` to Custom_Product and points its deprecated node at catalog_mysql4. */
  function CatalogTree(): Node {
    var catalog := Node("", map["rewrite" := Node("", map["product" := Leaf("Custom_Product")]),
                                "deprecatedNode" := Leaf("catalog_mysql4")]);
    var legacy := Node("", map["rewrite" := Node("", map["resource" := Leaf("Legacy_Resource")])]);
    Node("", map["global" := Node("", map["models" := Node("", map["catalog" := catalog, "catalog_mysql4" := legacy])])])
  }

  lemma CatalogGroups()
    ensures GroupNode(CatalogTree(), "model", "catalog") == Some(CatalogTree().children["global"].children["models"].children["catalog"])
    ensures GroupNode(CatalogTree(), "model", "catalog_mysql4") == Some(CatalogTree().children["global"].children["models"].children["catalog_mysql4"])
  {
    var t := CatalogTree();
    var models := t.children["global"].children["models"];
    assert "model" + "s" == "models";
    forall g | g in models.children
      ensures GroupNode(t, "model", g) == Some(models.children[g])
    {
      var p := ["global", "models", g];
      assert p[1..] == ["models", g] && p[1..][1..] == [g] && [g][1..] == [];
      var global := t.children["global"];
      assert Descend(models.children[g], []) == Some(models.children[g]);
      assert Descend(models, [g]) == Descend(models.children[g], []);
      assert Descend(global, ["models", g]) == Descend(models, [g]);
      assert Descend(t, p) == Descend(global, ["models", g]);
    }
  }

  lemma OverridePrecedenceExample()
    ensures Finalize(CatalogTree(), "model", "catalog", Some("product")) == "Custom_Product"
  {
    CatalogGroups();
  }

  lemma VetoExample()
    ensures Finalize(CatalogTree(), "model", "catalog", None) == "Mage_Catalog_Model"
  {
    calc {
      Finalize(CatalogTree(), "model", "catalog", None);
      { VetoDropsSuffix(CatalogTree(), "model", "catalog", None); }
      Strings.UcWords(BaseName(GroupNode(CatalogTree(), "model", "catalog"), "catalog", "model"));
      { CatalogBaseName(); }
      Strings.UcWords("mage" + "_" + ("catalog" + "_" + "model"));
      { MageCatalogModel(); }
      "Mage" + "_" + ("Catalog" + "_" + "Model");
      "Mage_Catalog_Model";
    }
  }

  lemma CatalogBaseName()
    ensures BaseName(GroupNode(CatalogTree(), "model", "catalog"), "catalog", "model") == "mage" + "_" + ("catalog" + "_" + "model")
  {
    CatalogGroups();
  }

  lemma MageCatalogModel()
    ensures Strings.UcWords("mage" + "_" + ("catalog" + "_" + "model")) == "Mage" + "_" + ("Catalog" + "_" + "Model")
  {
    UcWordsJoin("catalog", "model");
    UcWordsWord("catalog");
    UcWordsWord("model");
    UcWordsJoin("mage", "catalog" + "_" + "model");
    UcWordsWord("mage");
  }

  lemma DeprecatedFallbackExample()
    ensures Finalize(CatalogTree(), "model", "catalog", Some("resource")) == "Legacy_Resource"
  {
    CatalogGroups();
  }
}
