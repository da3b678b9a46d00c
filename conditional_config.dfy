/**
 * `Linus_Conditional_Model_Config`: the earlier variant of the class lookup.
 * It dispatches the same event but passes only the group and the class, under
 * the key "class"; otherwise the lookup is the same.
 */
module ConditionalConfig {
  import opened Wrappers
  import opened ConfigTree
  import opened ClassResolution
  import Bus
  import IddqdConfig

  /** The payload observers of `before_configxml_rewrite` receive under the key "class". */
  datatype ClassData = ClassData(group: string, cls: Option<string>)

  const PayloadKey := "class"

  function PostEventClass(observers: seq<Bus.Observer<ClassData>>, group: string, cls: Option<string>): Option<string> {
    Bus.Dispatch(observers, Bus.Event(RewriteEvent, PayloadKey, ClassData(group, cls))).cls
  }

  class Config {
    var xml: Node
    var classNameCache: map<CacheKey, string>
    ghost var dispatched: nat
    const observers: seq<Bus.Observer<ClassData>>

    constructor(xml: Node, observers: seq<Bus.Observer<ClassData>>)
      ensures this.xml == xml && this.observers == observers
      ensures classNameCache == map[] && dispatched == 0
    {
      this.xml := xml;
      this.observers := observers;
      classNameCache := map[];
      dispatched := 0;
    }

    /** `getGroupedClassName`, with the event payload holding only group and class. */
    method GetGroupedClassName(groupType: string, classId: string, groupRootNode: Option<string>) returns (className: string)
      modifies this`classNameCache, this`dispatched
      ensures var ref := ParseClassId(groupType, classId, groupRootNode);
        var o := Resolve(old(classNameCache), xml, groupType, ref, PostEventClass(observers, ref.group, ref.cls));
        && className == o.name
        && classNameCache == o.cache
        && dispatched == old(dispatched) + (if o.fired then 1 else 0)
    {
      var ref := ParseClassId(groupType, classId, groupRootNode);
      var group, cls := ref.group, ref.cls;
      var key := CacheKey(ref.root, group, KeyClass(cls));
      if key in classNameCache {
        return classNameCache[key];
      }

      var config := GroupNode(xml, groupType, group);

      if RewriteNode(config, cls).Some? {
        var eventData := ClassData(group, cls);
        var result := Bus.Dispatch(observers, Bus.Event(RewriteEvent, PayloadKey, eventData));
        dispatched := dispatched + 1;
        cls := result.cls;
      }
      assert cls == EffectiveClass(xml, groupType, ref, PostEventClass(observers, group, ref.cls));

      className := ClassNameFor(xml, groupType, group, config, cls);
      classNameCache := classNameCache[CacheKey(ref.root, group, KeyClass(cls)) := className];
    }
  }

  // ---- The two variants agree ----

  /** The (group, class) part of the richer payload. */
  function Project(d: IddqdConfig.RewriteData): ClassData {
    ClassData(d.group, d.cls)
  }

  /**
   * Observer lists that correspond one to one (whatever instance the richer
   * payload carries, each observer leaves the same group and class as its
   * counterpart) settle the same group and class.
   */
  lemma {:induction false} DispatchCorresponds(rich: seq<Bus.Observer<IddqdConfig.RewriteData>>, plain: seq<Bus.Observer<ClassData>>, d: IddqdConfig.RewriteData)
    requires |rich| == |plain|
    requires forall k, d: IddqdConfig.RewriteData :: 0 <= k < |rich| ==>
      Project(rich[k](Bus.Event(RewriteEvent, IddqdConfig.PayloadKey, d)))
        == plain[k](Bus.Event(RewriteEvent, PayloadKey, Project(d)))
    ensures Project(Bus.Dispatch(rich, Bus.Event(RewriteEvent, IddqdConfig.PayloadKey, d)))
      == Bus.Dispatch(plain, Bus.Event(RewriteEvent, PayloadKey, Project(d)))
    decreases |rich|
  {
    if rich != [] {
      var next := rich[0](Bus.Event(RewriteEvent, IddqdConfig.PayloadKey, d));
      forall k, d': IddqdConfig.RewriteData | 0 <= k < |rich| - 1
        ensures Project(rich[1..][k](Bus.Event(RewriteEvent, IddqdConfig.PayloadKey, d')))
          == plain[1..][k](Bus.Event(RewriteEvent, PayloadKey, Project(d')))
      {
        assert rich[1..][k] == rich[k + 1] && plain[1..][k] == plain[k + 1];
      }
      DispatchCorresponds(rich[1..], plain[1..], next);
    }
  }

  /**
   * Started from the same tree and cache, the two variants with corresponding
   * observers return the same class name, leave the same cache and fire the
   * event in the same cases.
   */
  lemma VariantsAgree(cache: map<CacheKey, string>, xml: Node, instance: IddqdConfig.Config,
                      rich: seq<Bus.Observer<IddqdConfig.RewriteData>>, plain: seq<Bus.Observer<ClassData>>,
                      groupType: string, classId: string, groupRootNode: Option<string>)
    requires |rich| == |plain|
    requires forall k, d: IddqdConfig.RewriteData :: 0 <= k < |rich| ==>
      Project(rich[k](Bus.Event(RewriteEvent, IddqdConfig.PayloadKey, d)))
        == plain[k](Bus.Event(RewriteEvent, PayloadKey, Project(d)))
    ensures var ref := ParseClassId(groupType, classId, groupRootNode);
      Resolve(cache, xml, groupType, ref, IddqdConfig.PostEventClass(rich, instance, ref.group, ref.cls))
        == Resolve(cache, xml, groupType, ref, PostEventClass(plain, ref.group, ref.cls))
  {
    var ref := ParseClassId(groupType, classId, groupRootNode);
    DispatchCorresponds(rich, plain, IddqdConfig.RewriteData(instance, ref.group, ref.cls));
  }
}
