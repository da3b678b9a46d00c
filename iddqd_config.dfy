/**
 * `Linus_Iddqd_Model_Config`: Magento's config object with an event
 * dispatched before a class rewrite is applied, plus helpers that disable
 * event observers and rewrite a class path in the configuration tree.
 */
module IddqdConfig {
  import opened Wrappers
  import opened ConfigTree
  import opened ClassResolution
  import Bus
  import Strings

  /** The payload observers of `before_configxml_rewrite` receive under the key "config". */
  datatype RewriteData = RewriteData(instance: Config, group: string, cls: Option<string>)

  const PayloadKey := "config"

  /** The class the payload holds once every observer has run. */
  function PostEventClass(observers: seq<Bus.Observer<RewriteData>>, instance: Config, group: string, cls: Option<string>): Option<string> {
    Bus.Dispatch(observers, Bus.Event(RewriteEvent, PayloadKey, RewriteData(instance, group, cls))).cls
  }

  // ---- disableEventObserversFor ----

  const EventsPath: seq<string> := ["frontend", "events"]
  const DisabledType := "disabled"
  const InvalidArguments := "Invalid arguments passed to disableEventObserversFor."

  predicate ValidArea(area: string) {
    area == "global" || area == "frontend" || area == "adminhtml"
  }

  /**
   * `getFrontendEvents()`: the frontend/events element, absent when it is
   * missing. An existing element, even an empty one, passes the guard.
   */
  function FrontendEvents(xml: Node): Option<Node> {
    Descend(xml, EventsPath)
  }

  /** `$observer->type = 'disabled'`: the observer's `type` becomes "disabled", nothing else changes. */
  function MarkDisabled(observer: Node): (r: Node)
    ensures Child(r, "type") == Some(Leaf(DisabledType))
    ensures r.text == observer.text
    ensures forall c :: c != "type" ==> Child(r, c) == Child(observer, c)
  {
    Node(observer.text, observer.children["type" := Leaf(DisabledType)])
  }

  /** One event with every observer whose name is in `handles` disabled. */
  function DisableInEvent(event: Node, handles: set<string>): Node {
    if "observers" in event.children then
      var observers := event.children["observers"];
      var marked := map o | o in observers.children :: if o in handles then MarkDisabled(observers.children[o]) else observers.children[o];
      Node(event.text, event.children["observers" := Node(observers.text, marked)])
    else event
  }

  /** The events element with `DisableInEvent` applied to each event. */
  function DisableInEvents(events: Node, handles: set<string>): Node {
    Node(events.text, map e | e in events.children :: DisableInEvent(events.children[e], handles))
  }

  /** One handle disabled in one event, as the innermost loop body does it. */
  function DisableObserver(event: Node, handle: string): Node {
    if "observers" in event.children && handle in event.children["observers"].children then
      var observers := event.children["observers"];
      var marked := observers.children[handle := MarkDisabled(observers.children[handle])];
      Node(event.text, event.children["observers" := Node(observers.text, marked)])
    else event
  }

  function HandleSet(handles: seq<string>): set<string> {
    set h | h in handles
  }

  /**
   * The tree `disableEventObserversFor(area, handles)` leaves, or the error it
   * throws. Whatever the (valid) area, only frontend/events is edited.
   */
  function DisableEventObservers(xml: Node, area: string, handles: seq<string>): Result<Node, string> {
    var events := if ValidArea(area) then FrontendEvents(xml) else None;
    if events.None? || |handles| == 0 then Failure(InvalidArguments)
    else Success(Graft(xml, EventsPath, DisableInEvents(events.value, HandleSet(handles))))
  }

  /** The path of observer `o` of event `e` in frontend/events. */
  function ObserverPath(e: string, o: string): seq<string> {
    EventsPath + [e, "observers", o]
  }

  class Config {
    var xml: Node
    /** `_classNameCache[groupRootNode][group][class]`, flattened. */
    var classNameCache: map<CacheKey, string>
    /** How many times `before_configxml_rewrite` has been dispatched. */
    ghost var dispatched: nat
    /** The observers registered for `before_configxml_rewrite`, in registration order. */
    const observers: seq<Bus.Observer<RewriteData>>

    constructor(xml: Node, observers: seq<Bus.Observer<RewriteData>>)
      ensures this.xml == xml && this.observers == observers
      ensures classNameCache == map[] && dispatched == 0
    {
      this.xml := xml;
      this.observers := observers;
      classNameCache := map[];
      dispatched := 0;
    }

    /**
     * `getGroupedClassName($groupType, $classId, $groupRootNode)`: the class
     * name, the new cache and the number of dispatches are those `Resolve`
     * gives for the parsed identifier and the observers' answer.
     */
    method GetGroupedClassName(groupType: string, classId: string, groupRootNode: Option<string>) returns (className: string)
      modifies this`classNameCache, this`dispatched
      ensures var ref := ParseClassId(groupType, classId, groupRootNode);
        var o := Resolve(old(classNameCache), xml, groupType, ref, PostEventClass(observers, this, ref.group, ref.cls));
        && className == o.name
        && classNameCache == o.cache
        && dispatched == old(dispatched) + (if o.fired then 1 else 0)
    {
      var ref := ParseClassId(groupType, classId, groupRootNode);
      var group, cls := ref.group, ref.cls;
      var key := CacheKey(ref.root, group, KeyClass(cls));
      if key in classNameCache {
        return classNameCache[key];
      }

      var config := GroupNode(xml, groupType, group);

      if RewriteNode(config, cls).Some? {
        var eventData := RewriteData(this, group, cls);
        var result := Bus.Dispatch(observers, Bus.Event(RewriteEvent, PayloadKey, eventData));
        dispatched := dispatched + 1;
        cls := result.cls;
      }
      assert cls == EffectiveClass(xml, groupType, ref, PostEventClass(observers, this, group, ref.cls));
      className := ClassNameFor(xml, groupType, group, config, cls);
      classNameCache := classNameCache[CacheKey(ref.root, group, KeyClass(cls)) := className];
    }

    /**
     * `disableEventObserversFor($area, $handles)`: throws on an unknown area,
     * a missing frontend/events element or no handles; otherwise
     * edits frontend/events as `DisableEventObservers` says.
     */
    method DisableEventObserversFor(area: string, handles: seq<string>) returns (r: Wrappers.Outcome<string>)
      modifies this`xml
      ensures var expected := DisableEventObservers(old(xml), area, handles);
        && (expected.Failure? ==> r == Fail(expected.error) && xml == old(xml))
        && (expected.Success? ==> r == Pass && xml == expected.value)
    {
      var frontendEventsConfig: Option<Node> := None;
      if area == "global" {
        frontendEventsConfig := FrontendEvents(xml);
      } else if area == "frontend" {
        frontendEventsConfig := FrontendEvents(xml);
      } else if area == "adminhtml" {
        frontendEventsConfig := FrontendEvents(xml);
      }

      if frontendEventsConfig.None? || |handles| == 0 {
        return Fail(InvalidArguments);
      }

      ghost var start := xml;
      GraftSame(start, EventsPath, frontendEventsConfig.value);
      var events := DisableHandles(frontendEventsConfig.value, handles, start);
      return Pass;
    }

    /**
     * The loop over the handles: afterwards every observer named by one of them
     * is disabled in every frontend event, and the tree holds the result.
     */
    method DisableHandles(original: Node, handles: seq<string>, ghost start: Node) returns (events: Node)
      requires xml == Graft(start, EventsPath, original)
      modifies this`xml
      ensures events == DisableInEvents(original, HandleSet(handles))
      ensures xml == Graft(start, EventsPath, events)
    {
      events := original;
      forall e | e in events.children
        ensures events.children[e] == DisableInEvent(original.children[e], HandleSet(handles[..0]))
      {
        assert HandleSet(handles[..0]) == {};
        DisableNone(original.children[e]);
      }

      var i := 0;
      while i < |handles|
        invariant 0 <= i <= |handles|
        invariant events.text == original.text && events.children.Keys == original.children.Keys
        invariant forall e :: e in events.children ==>
          events.children[e] == DisableInEvent(original.children[e], HandleSet(handles[..i]))
        invariant xml == Graft(start, EventsPath, events)
      {
        var namespace := handles[i];
        events := DisableHandle(events, namespace, start);
        forall e | e in events.children
          ensures events.children[e] == DisableInEvent(original.children[e], HandleSet(handles[..i]) + {namespace})
        {
          DisableStep(original.children[e], HandleSet(handles[..i]), namespace);
        }
        assert HandleSet(handles[..i + 1]) == HandleSet(handles[..i]) + {namespace} by {
          assert handles[..i + 1] == handles[..i] + [namespace];
        }
        i := i + 1;
      }
      assert handles[..i] == handles;
      assert events.children == DisableInEvents(original, HandleSet(handles)).children;
    }

    /**
     * The loop over every frontend event for one handle: each event's observer
     * of that name, when it has one, is disabled, and the tree is kept in step.
     */
    method DisableHandle(events: Node, namespace: string, ghost start: Node) returns (disabled: Node)
      requires xml == Graft(start, EventsPath, events)
      modifies this`xml
      ensures disabled.text == events.text && disabled.children.Keys == events.children.Keys
      ensures forall e :: e in disabled.children ==> disabled.children[e] == DisableObserver(events.children[e], namespace)
      ensures xml == Graft(start, EventsPath, disabled)
    {
      disabled := events;
      var pending := disabled.children.Keys;
      while pending != {}
        invariant pending <= disabled.children.Keys
        invariant disabled.text == events.text && disabled.children.Keys == events.children.Keys
        invariant forall e :: e in disabled.children ==>
          disabled.children[e] == if e in pending then events.children[e] else DisableObserver(events.children[e], namespace)
        invariant xml == Graft(start, EventsPath, disabled)
        decreases pending
      {
        var name :| name in pending;
        var dispatchedEvent := disabled.children[name];
        if "observers" in dispatchedEvent.children && namespace in dispatchedEvent.children["observers"].children {
          ghost var before := disabled;
          disabled := Node(disabled.text, disabled.children[name := DisableObserver(dispatchedEvent, namespace)]);
          GraftTwice(start, EventsPath, before, disabled);
          xml := Graft(xml, EventsPath, disabled);
        }
        pending := pending - {name};
      }
    }

    /** `rewriteClass($xmlPath, $className)`: `setNode` on the tree; the class name cache is left as it was. */
    method RewriteClass(xmlPath: string, className: string)
      modifies this`xml
      ensures xml == SetNode(old(xml), xmlPath, className)
    {
      xml := SetNode(xml, xmlPath, className);
    }
  }

  // ---- Properties of disableEventObserversFor ----

  /** Marking an observer disabled twice is marking it once. */
  lemma MarkTwice(observer: Node)
    ensures MarkDisabled(MarkDisabled(observer)) == MarkDisabled(observer)
  {
    assert MarkDisabled(MarkDisabled(observer)).children == MarkDisabled(observer).children;
  }

  /** Disabling no handle changes nothing. */
  lemma DisableNone(event: Node)
    ensures DisableInEvent(event, {}) == event
  {
    if "observers" in event.children {
      var observers := event.children["observers"];
      assert DisableInEvent(event, {}).children["observers"].children == observers.children;
      assert DisableInEvent(event, {}).children == event.children;
    }
  }

  /** Disabling a handle on top of a set of handles is disabling the larger set. */
  lemma DisableStep(event: Node, handles: set<string>, h: string)
    ensures DisableObserver(DisableInEvent(event, handles), h) == DisableInEvent(event, handles + {h})
  {
    if "observers" in event.children {
      var observers := event.children["observers"];
      var step := DisableInEvent(event, handles).children["observers"];
      var all := DisableInEvent(event, handles + {h}).children["observers"];
      if h in observers.children {
        MarkTwice(observers.children[h]);
        var next := step.children[h := MarkDisabled(step.children[h])];
        forall o | o in next
          ensures next[o] == all.children[o]
        {
        }
        assert next == all.children;
      } else {
        assert step.children == all.children;
      }
    }
  }

  /** Where an observer sits under an events element. */
  lemma ObserverLookup(events: Node, e: string, o: string)
    ensures Descend(events, [e, "observers", o]) ==
      if e in events.children && "observers" in events.children[e].children
        && o in events.children[e].children["observers"].children
      then Some(events.children[e].children["observers"].children[o])
      else None
  {
    var path := [e, "observers", o];
    assert path[1..] == ["observers", o] && path[1..][1..] == [o] && [o][1..] == [];
    if e in events.children {
      var ev := events.children[e];
      if "observers" in ev.children {
        var obs := ev.children["observers"];
        assert Descend(obs, [o]) == if o in obs.children then Some(obs.children[o]) else None;
      }
    }
  }

  /** Every valid area edits the same (frontend) events. */
  lemma DisableIgnoresArea(xml: Node, a1: string, a2: string, handles: seq<string>)
    requires ValidArea(a1) && ValidArea(a2)
    ensures DisableEventObservers(xml, a1, handles) == DisableEventObservers(xml, a2, handles)
  {
  }

  /** The call throws exactly for an unknown area, a missing frontend/events element, or no handles. */
  lemma DisableRejects(xml: Node, area: string, handles: seq<string>)
    ensures DisableEventObservers(xml, area, handles).Failure?
      <==> !ValidArea(area) || Descend(xml, EventsPath).None? || handles == []
  {
  }

  /** Disabling twice with the same handles is disabling once. */
  lemma DisableIdempotent(xml: Node, area: string, handles: seq<string>)
    requires DisableEventObservers(xml, area, handles).Success?
    ensures DisableEventObservers(DisableEventObservers(xml, area, handles).value, area, handles)
      == DisableEventObservers(xml, area, handles)
  {
    var hs := HandleSet(handles);
    var events := FrontendEvents(xml).value;
    var disabled := DisableInEvents(events, hs);
    var t := Graft(xml, EventsPath, disabled);
    assert FrontendEvents(t) == Some(disabled);
    forall e | e in disabled.children
      ensures DisableInEvent(disabled.children[e], hs) == disabled.children[e]
    {
      var ev := events.children[e];
      if "observers" in ev.children {
        var once := DisableInEvent(ev, hs).children["observers"];
        var twice := DisableInEvent(DisableInEvent(ev, hs), hs).children["observers"];
        forall o | o in twice.children
          ensures twice.children[o] == once.children[o]
        {
          if o in hs {
            MarkTwice(ev.children["observers"].children[o]);
          }
        }
        assert twice.children == once.children;
      }
    }
    assert DisableInEvents(disabled, hs) == disabled;
    GraftTwice(xml, EventsPath, disabled, disabled);
  }

  /**
   * An existing observer of a frontend event is disabled exactly when its name
   * is one of the handles and is otherwise left untouched; no observer is created.
   */
  lemma DisableMarksExactlyHandles(xml: Node, area: string, handles: seq<string>, e: string, o: string)
    requires DisableEventObservers(xml, area, handles).Success?
    ensures var t := DisableEventObservers(xml, area, handles).value;
      Descend(t, ObserverPath(e, o)) ==
        match Descend(xml, ObserverPath(e, o))
        case None => None
        case Some(n) => Some(if o in handles then MarkDisabled(n) else n)
  {
    var hs := HandleSet(handles);
    var events := FrontendEvents(xml).value;
    var disabled := DisableInEvents(events, hs);
    var t := Graft(xml, EventsPath, disabled);
    var rest := [e, "observers", o];
    DescendAppend(t, EventsPath, rest);
    DescendAppend(xml, EventsPath, rest);
    ObserverLookup(events, e, o);
    ObserverLookup(disabled, e, o);
  }

  /**
   * Inside frontend/events only observers change: the events, event and
   * observers elements keep their text and their child names, and every
   * child of an event other than `observers` is kept as it was.
   */
  lemma DisableKeepsEventShape(xml: Node, area: string, handles: seq<string>, e: string, c: string)
    requires DisableEventObservers(xml, area, handles).Success?
    ensures var t := DisableEventObservers(xml, area, handles).value;
      && Descend(xml, EventsPath).Some? && Descend(t, EventsPath).Some?
      && var before, after := Descend(xml, EventsPath).value, Descend(t, EventsPath).value;
      && after.text == before.text
      && after.children.Keys == before.children.Keys
      && (e in before.children ==>
        var ev, ev' := before.children[e], after.children[e];
        && ev'.text == ev.text
        && ev'.children.Keys == ev.children.Keys
        && (c != "observers" && c in ev.children ==> ev'.children[c] == ev.children[c])
        && ("observers" in ev.children ==>
          && ev'.children["observers"].text == ev.children["observers"].text
          && ev'.children["observers"].children.Keys == ev.children["observers"].children.Keys))
  {
    var events := FrontendEvents(xml).value;
    var disabled := DisableInEvents(events, HandleSet(handles));
    assert Descend(DisableEventObservers(xml, area, handles).value, EventsPath) == Some(disabled);
  }

  /** Outside frontend/events nothing changes. */
  lemma DisableKeepsOtherPaths(xml: Node, area: string, handles: seq<string>, q: seq<string>, i: nat)
    requires DisableEventObservers(xml, area, handles).Success?
    requires i < |EventsPath| && i < |q| && q[i] != EventsPath[i]
    ensures Descend(DisableEventObservers(xml, area, handles).value, q) == Descend(xml, q)
  {
    var events := FrontendEvents(xml).value;
    GraftFrame(xml, EventsPath, DisableInEvents(events, HandleSet(handles)), q, i);
  }

  // ---- rewriteClass ----

  /**
   * Setting global/<groupType>s/<group>/rewrite/<class> to a non-empty name
   * makes that name the answer for the class (on a cache miss).
   */
  lemma RewriteClassTakesEffect(xml: Node, groupType: string, group: string, cls: string, name: string)
    requires group != "" && cls != "" && name != ""
    requires '/' !in groupType && '/' !in group && '/' !in cls
    ensures Finalize(SetNode(xml, "global/" + groupType + "s/" + group + "/rewrite/" + cls, name), groupType, group, Some(cls)) == name
  {
    var segs := ["global", groupType + "s", group, "rewrite", cls];
    var path := "global/" + groupType + "s/" + group + "/rewrite/" + cls;
    assert path == Strings.Join(segs, '/') by {
      assert segs[1..] == [groupType + "s", group, "rewrite", cls];
      assert segs[1..][1..] == [group, "rewrite", cls];
      assert segs[1..][1..][1..] == ["rewrite", cls];
      assert segs[1..][1..][1..][1..] == [cls];
      assert Strings.Join(["rewrite", cls], '/') == "rewrite/" + cls;
      assert Strings.Join([group, "rewrite", cls], '/') == group + "/rewrite/" + cls;
      assert Strings.Join([groupType + "s", group, "rewrite", cls], '/') == groupType + "s/" + group + "/rewrite/" + cls;
    }
    assert forall k :: 0 <= k < |segs| ==> '/' !in segs[k];
    Strings.ExplodeJoin(segs, '/');
    assert Segments(path) == segs;
    var t := SetNode(xml, path, name);
    assert Descend(t, segs) == Some(Leaf(name));
    assert segs == ["global", groupType + "s", group] + ["rewrite", cls];
    DescendAppend(t, ["global", groupType + "s", group], ["rewrite", cls]);
    assert RewriteNode(GroupNode(t, groupType, group), Some(cls)) == Some(Leaf(name));
  }
}
