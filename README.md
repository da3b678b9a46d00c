# Iddqd: class rewrites, observer disabling and layout-file injection for Magento 1

This project models the core of the Iddqd Magento 1 extension and proves properties of the model. The core has three parts.

- **Class-name resolution** (`Linus_Iddqd_Model_Config::getGroupedClassName`, plus its older copy in `Linus_Conditional_Model_Config`). The call parses `"group/class"` and returns a cached name if there is one. Otherwise, when the group declares a rewrite for the class, it dispatches `before_configxml_rewrite`. An observer may change the class or null it. The call then re-reads the class. It picks the rewrite's value verbatim, else the deprecated group's rewrite, else a name synthesised with `uc_words`. It caches and returns the result.
- **Observer disabling and class rewriting on the configuration tree** (`disableEventObserversFor`, `rewriteClass`).
- **Layout update file list** (`Linus_Iddqd_Model_Layout_Update::getFileLayoutUpdatesXml`, `addLayoutUpdate`). Module and theme update nodes are merged and filtered, and `local.xml` is appended. The list is handed to observers of `before_layoutxml_compile`, who may append files. The readable files' contents are then concatenated.

Layout of the Dafny modules:

- `wrappers.dfy`: `Option`, `Result`, `Outcome`.
- `strings.dfy`: PHP `trim`, `explode`/`implode` on one separator, `uc_words`.
- `config_tree.dfy`: the configuration XML as a tree of uniquely named children. It provides lookup (`Descend`), grafting a subtree at a path (`Graft`) and `setNode`.
- `bus.dfy`: synchronous event dispatch. The observers, total functions from the event to the new payload, run in registration order on a shared payload.
- `class_resolution.dfy`: the decision procedure both `getGroupedClassName` copies share, as specification functions with lemmas (`ParseClassId`, `Finalize`, `Resolve`). It also holds the method `ClassNameFor`, which computes the name step by step.
- `iddqd_config.dfy`: class `Config` with the fields `xml`, `classNameCache` and the observers, and a ghost dispatch counter. Its methods are `GetGroupedClassName`, `DisableEventObserversFor` (nested loops over handles and events) and `RewriteClass`.
- `conditional_config.dfy`: the Conditional variant's `Config` class, and the proof that both variants agree.
- `layout_update.dfy`: the list-building loop, the payload object with `AddLayoutUpdate`, the file-combining loop and `GetFileLayoutUpdatesXml`.

Points where the code's behaviour is easy to misread:

- **Cache key.** The cache is written under the class as it stands *after* the event (Config.php:100), not under the key that was looked up (Config.php:37). A repeated call therefore hits the cache only when the observers kept the class (`RepeatHitsIffClassKept`).
- **Veto.** A vetoed (nulled) class drops the `_class` suffix. In the catalog scenario the result is `Mage_Catalog_Model`, not a name ending in `_product` (`VetoExample`).
- **Lookup root.** The group is always looked up under `global/<groupType>s`. `groupRootNode` only selects the cache bucket.
- **Null class.** A null class and an empty class share one cache slot, because PHP turns a null array key into `""`.

## Model

| member | source | states |
|---|---|---|
| ClassResolution.ParseClassId | src/app/code/community/Linus/Iddqd/Model/Config.php:30-35 | The root is the given one when non-empty, and `global/<groupType>s` otherwise. Group and class are those `SplitClassId` reads from the trimmed identifier. |
| ClassResolution.SplitClassId | src/app/code/community/Linus/Iddqd/Model/Config.php:33-35 | The group is the slash-free prefix up to the first `/`. The class is the non-empty, slash-free text between the first and second `/` (or the end). The class is absent when that text is empty or missing. Later segments are ignored. |
| Strings.Trim | src/app/code/community/Linus/Iddqd/Model/Config.php:33 | The result is a slice of the input. Only PHP trim characters are removed before and after it, and it neither starts nor ends with one. |
| Strings.Explode | src/app/code/community/Linus/Iddqd/Model/Config.php:33 | There is at least one part. No part contains the separator. Joining the parts with the separator gives back the input. |
| Strings.ExplodeJoin | src/app/code/community/Linus/Iddqd/Model/Config.php:33 | Exploding the join of separator-free parts gives back those parts, so explode and implode are inverse. |
| Strings.UcWords | src/app/code/community/Linus/Iddqd/Model/Config.php:97 | The length is kept. The character at the start and after each `_` is upper-cased, and every other character is unchanged. |
| Strings.UcWordsIdempotent | src/app/code/community/Linus/Iddqd/Model/Config.php:97 | Applying `uc_words` twice is applying it once. |
| IddqdConfig.Config.GetGroupedClassName | src/app/code/community/Linus/Iddqd/Model/Config.php:28-102 | The returned name, the new cache and the number of dispatches are those of `Resolve` applied to the old cache, the tree, the parsed identifier and what the observers leave in the (instance, group, class) payload. |
| ClassResolution.ClassNameFor | src/app/code/community/Linus/Iddqd/Model/Config.php:67-98 | The name computed step by step equals `Finalize`: rewrite, else deprecated rewrite, else the synthesised name. |
| ClassResolution.Finalize | src/app/code/community/Linus/Iddqd/Model/Config.php:86-98 | The name of an uncached lookup is never empty. |
| ClassResolution.BaseName | src/app/code/community/Linus/Iddqd/Model/Config.php:88-93 | The base of a synthesised name is never empty. It is the group's class prefix, or `mage_<group>_<groupType>`. |
| ClassResolution.CacheHit | src/app/code/community/Linus/Iddqd/Model/Config.php:37-39 | A cache hit returns the stored name, leaves the cache unchanged and dispatches nothing. |
| ClassResolution.FiresIffMissWithRewrite | src/app/code/community/Linus/Iddqd/Model/Config.php:46-57 | The event fires exactly when the lookup misses the cache and the group has a rewrite for the parsed class. |
| ClassResolution.RewriteWinsVerbatim | src/app/code/community/Linus/Iddqd/Model/Config.php:69-70 | A non-empty rewrite for the settled class is the answer as written, without `uc_words`. |
| ClassResolution.DeprecatedOnlyWithoutRewrite | src/app/code/community/Linus/Iddqd/Model/Config.php:69-84 | With a rewrite present, the deprecated group is not consulted. Without one, a non-empty rewrite under the group named by `deprecatedNode` is the answer. |
| ClassResolution.SynthesisedName | src/app/code/community/Linus/Iddqd/Model/Config.php:86-97 | With no rewrite found, the name is `uc_words(base)`, followed by `_` and `uc_words(class)` when there is a non-empty class. |
| ClassResolution.SynthesisedShape | src/app/code/community/Linus/Iddqd/Model/Config.php:94-97 | It states the same split of the synthesised name for any group element. |
| ClassResolution.UcWordsJoin | src/app/code/community/Linus/Iddqd/Model/Config.php:95-97 | `uc_words` distributes over an `_` join. |
| ClassResolution.UcWordsWord | src/app/code/community/Linus/Iddqd/Model/Config.php:97 | In a single word without `_`, only the first letter is upper-cased. |
| ClassResolution.VetoDropsSuffix | src/app/code/community/Linus/Iddqd/Model/Config.php:94-96 | A null or empty settled class finds no rewrite and yields `uc_words(base)`, without any suffix. |
| ClassResolution.MissStoresUnderSettledClass | src/app/code/community/Linus/Iddqd/Model/Config.php:100-101 | A miss returns `Finalize` of the settled class and stores it under the key of the settled (post-event) class. No other cache entry changes. |
| ClassResolution.RepeatHitsIffClassKept | src/app/code/community/Linus/Iddqd/Model/Config.php:37-100 | After a miss, the looked-up key is present exactly when the observers left the class as parsed. |
| ClassResolution.RepeatIsStable | src/app/code/community/Linus/Iddqd/Model/Config.php:37-101 | Repeating a call, when the observers give the same answer, returns the same name and leaves the same cache. |
| ClassResolution.OverridePrecedenceExample | src/app/code/community/Linus/Iddqd/Model/Config.php:69-70 | In the catalog tree, `catalog/product` resolves to `Custom_Product`. |
| ClassResolution.VetoExample | src/app/code/community/Linus/Iddqd/Model/Config.php:91-97 | In the catalog tree, a vetoed `catalog/product` resolves to `Mage_Catalog_Model`. |
| ClassResolution.DeprecatedFallbackExample | src/app/code/community/Linus/Iddqd/Model/Config.php:77-82 | `catalog/resource` resolves to `Legacy_Resource`, the rewrite under the deprecated `catalog_mysql4` group. |
| Bus.DispatchAppend | src/app/code/community/Linus/Iddqd/Model/Config.php:52-57 | Dispatching to `a + b` is dispatching to `a`, then to `b` on the payload `a` left. |
| Bus.DispatchLast | src/app/code/community/Linus/Iddqd/Model/Config.php:63 | The class read back is what the last observer left, given what the others produced. |
| IddqdConfig.Config.DisableEventObserversFor | src/app/code/community/Linus/Iddqd/Model/Config.php:247-283 | The call returns the error message and leaves the tree unchanged exactly when `DisableEventObservers` fails. Otherwise it returns `Pass` and the tree becomes `DisableEventObservers`' result. |
| IddqdConfig.Config.DisableHandles | src/app/code/community/Linus/Iddqd/Model/Config.php:269-280 | After the loop over handles, the events element is `DisableInEvents` of the original for the set of handles, and the tree holds it at frontend/events. |
| IddqdConfig.Config.DisableHandle | src/app/code/community/Linus/Iddqd/Model/Config.php:270-278 | After the loop over events for one handle, each event has that observer disabled (if the event has it), the event names are unchanged, and the tree holds the result. |
| IddqdConfig.MarkDisabled | src/app/code/community/Linus/Iddqd/Model/Config.php:274 | The observer's `type` becomes `disabled`, and every other child and the text are unchanged. |
| IddqdConfig.DisableStep | src/app/code/community/Linus/Iddqd/Model/Config.php:269-280 | Disabling one more handle on top of a set is disabling the larger set. This is the invariant step of the outer loop. |
| IddqdConfig.DisableRejects | src/app/code/community/Linus/Iddqd/Model/Config.php:251-267 | The call throws exactly when the area is not global, frontend or adminhtml, when frontend/events is missing, or when no handle is given. An existing but empty events element does not throw. |
| IddqdConfig.DisableIgnoresArea | src/app/code/community/Linus/Iddqd/Model/Config.php:251-261 | Every valid area gives the same result: the frontend events are edited. |
| IddqdConfig.DisableMarksExactlyHandles | src/app/code/community/Linus/Iddqd/Model/Config.php:272-277 | An existing observer of a frontend event is disabled exactly when its name is one of the handles, and is otherwise unchanged. No observer is created. |
| IddqdConfig.DisableKeepsEventShape | src/app/code/community/Linus/Iddqd/Model/Config.php:269-280 | Inside frontend/events only observers change. The events, event and observers elements keep their text and child names, and every child of an event other than `observers` is unchanged. |
| IddqdConfig.DisableKeepsOtherPaths | src/app/code/community/Linus/Iddqd/Model/Config.php:269-280 | Every path that leaves frontend/events reads the same before and after. |
| IddqdConfig.DisableIdempotent | src/app/code/community/Linus/Iddqd/Model/Config.php:247-283 | Disabling twice with the same handles is disabling once. |
| IddqdConfig.Config.RewriteClass | src/app/code/community/Linus/Iddqd/Model/Config.php:293-297 | The tree becomes `SetNode(old tree, path, name)`. The class name cache is untouched, so a stale cached name stays. |
| ConfigTree.SetNode | src/app/code/community/Linus/Iddqd/Model/Config.php:295 | A path with segments leads afterwards to a text-only element holding the value. A path without segments changes nothing. |
| IddqdConfig.RewriteClassTakesEffect | src/app/code/community/Linus/Iddqd/Model/Config.php:293-297 | After `rewriteClass("global/<type>s/<group>/rewrite/<class>", name)` with a non-empty name, an uncached lookup of `group/class` returns that name. |
| ConditionalConfig.Config.GetGroupedClassName | src/app/code/local/Linus/Conditional/Model/Config.php:17-88 | The name, the cache and the dispatch count are those of `Resolve`, with the observers given only (group, class) under the key `class`. |
| ConditionalConfig.DispatchCorresponds | src/app/code/local/Linus/Conditional/Model/Config.php:35-49 | Observer lists that correspond one to one settle the same group and class from either payload. |
| ConditionalConfig.VariantsAgree | src/app/code/local/Linus/Conditional/Model/Config.php:17-88 | With the same cache, tree, inputs and corresponding observers, both variants return the same name, leave the same cache and fire in the same cases. |
| LayoutUpdate.MergeUpdates | src/app/code/community/Linus/Iddqd/Model/Layout/Update.php:35-40 | The module nodes come first and unchanged. The theme nodes follow them, and replace none. |
| LayoutUpdate.UpdateFilesBeforeEvent | src/app/code/community/Linus/Iddqd/Model/Layout/Update.php:35-52 | The list the loop builds is the kept files of the merged nodes, followed by `local.xml`. |
| LayoutUpdate.KeptFilesAppend | src/app/code/community/Linus/Iddqd/Model/Layout/Update.php:41-50 | Filtering two node lists in a row gives the two filtered lists in a row. |
| LayoutUpdate.KeptFilesSubsequence | src/app/code/community/Linus/Iddqd/Model/Layout/Update.php:41-50 | The kept files are a subsequence of the nodes' files, taken at increasing positions, and every node that is not skipped is taken. |
| LayoutUpdate.KeptFilesMembership | src/app/code/community/Linus/Iddqd/Model/Layout/Update.php:42-49 | A file is listed exactly when some node names it with a non-empty file whose module is not output-disabled. |
| LayoutUpdate.ThemeFilesAfterModuleFiles | src/app/code/community/Linus/Iddqd/Model/Layout/Update.php:37-50 | The kept theme files follow the kept module files. The same disable rule applies to both. |
| LayoutUpdate.FilesBeforeEventBound | src/app/code/community/Linus/Iddqd/Model/Layout/Update.php:51-52 | `local.xml` is last before the event, and the list has at most one entry more than the merged nodes. |
| LayoutUpdate.AddLayoutUpdate | src/app/code/community/Linus/Iddqd/Model/Layout/Update.php:98-103 | The payload's list becomes what the `Appender(newFile)` observer leaves for the old list: the old list with the new file appended. |
| LayoutUpdate.InjectLayoutUpdates | src/app/code/community/Linus/Iddqd/Model/Layout/Update.php:98-103 | Calling `addLayoutUpdate` on one payload for each file in turn leaves the list the event would return for the matching `Appender` observers: the old list followed by those files. |
| LayoutUpdate.NoObserverKeepsList | src/app/code/community/Linus/Iddqd/Model/Layout/Update.php:57-66 | With no observer, the list read back is the list passed in. |
| LayoutUpdate.AppendersAppend | src/app/code/community/Linus/Iddqd/Model/Layout/Update.php:57-66 | Observers that each append one file leave the list followed by those files, in registration order. |
| LayoutUpdate.AppendOnlyKeepsPrefix | src/app/code/community/Linus/Iddqd/Model/Layout/Update.php:57-66 | Observers that only append keep the pre-event list, `local.xml` included, as a prefix. |
| LayoutUpdate.CombineLayoutFiles | src/app/code/community/Linus/Iddqd/Model/Layout/Update.php:68-85 | The accumulated text is `LayoutBody`: each file's inner XML in list order, with unreadable and unparseable files contributing nothing. |
| LayoutUpdate.LayoutBodyAppend | src/app/code/community/Linus/Iddqd/Model/Layout/Update.php:68-85 | The text of two file lists in a row is the text of each, in a row. |
| LayoutUpdate.SkippedFileContributesNothing | src/app/code/community/Linus/Iddqd/Model/Layout/Update.php:75-83 | An unreadable or unparseable file can be removed from the list without changing the text. |
| LayoutUpdate.GetFileLayoutUpdatesXml | src/app/code/community/Linus/Iddqd/Model/Layout/Update.php:24-89 | The document is `<layouts>`, then the combined text of the list the observers return for the pre-event list, then `</layouts>`. |
| LayoutUpdate.ResourceListOrderingExample | src/app/code/community/Linus/Iddqd/Model/Layout/Update.php:35-52 | Two modules and a theme, with no observer, give `[a.xml, b.xml, t.xml, local.xml]`. |
| LayoutUpdate.DisabledModuleExample | src/app/code/community/Linus/Iddqd/Model/Layout/Update.php:44-47 | With module A's output disabled, `a.xml` is gone and the rest keep their order. |
| LayoutUpdate.ListenerAppendExample | src/app/code/community/Linus/Iddqd/Model/Layout/Update.php:57-66 | An observer appending `extra.xml` leaves a list ending in `local.xml, extra.xml`. |

## Left out

- `src/app/code/community/Linus/Iddqd/Helper/Data.php` is not part of this model. It reads request and registry state through the framework.
- Observer discovery, re-entrant dispatch and exceptions thrown by observers are not modelled. `Mage::dispatchEvent` becomes a sequence of registered observers, each a total function from the event to the new payload.
- IddqdConfig.PostEventClass: the `instance` in the payload is a reference to the `Config` object, but an observer is a pure function of the event. So an observer cannot change the tree or the cache through `instance` during dispatch.
- `god_mode` in the `before_layoutxml_compile` payload is not modelled, for the same reason. Observers see and return only the update-file list.
- ClassResolution.ClassPrefix: the framework's `getClassName()` is not part of this model. Its result is read as the text of the group's `class` child, with "" when there is none.
- Strings.UcWords: only ASCII letters are upper-cased, and only `_` starts a word. The framework's `uc_words` is `str_replace(' ', '_', ucwords(str_replace('_', ' ', $s)))`. It also starts a word after whitespace, and it turns every space into `_`, changing characters as well as case. The model does neither. The framework function is not part of this model.
- PHP `empty()` and PHP truthiness count `"0"` as empty or false. The model treats `"0"` as a non-empty string everywhere, which differs from the code in these places:
  - a `"0"` root, class identifier, class or file name;
  - a rewrite value `"0"`: Iddqd Config.php:87 then synthesises a name, while `Finalize` returns `"0"`;
  - a `class` prefix `"0"`: Iddqd Config.php:91 then falls back to `mage_<group>_<groupType>`, while `BaseName` keeps `"0"`;
  - a `module` attribute `"0"`: Update.php:45 never skips the node, while `Skipped` holds for it when `outputDisabled("0")` does;
  - a `setNode` path segment `"0"`: the framework drops it, while `Segments` keeps it.
- XML elements are modelled with uniquely named children. Repeated sibling elements of one name are not represented. So the middle `foreach` of `disableEventObserversFor`, over the `events` elements, is a single step.
- Element attributes are not modelled. An existing frontend/events element passes the guard of `disableEventObserversFor` even when it is empty, because a child reached by name converts to true whenever it exists. Only a missing element makes the call throw.
- ConfigTree.SetNode: empty path segments are skipped, and the target becomes a text-only element. The framework's `setNode` is not part of this model.
- In `getFileLayoutUpdatesXml`, the following are inputs to the model rather than computed by it:
  - the `core_layout_update_updates_get_after` event;
  - the store-id default;
  - `Mage::getStoreConfigFlag` (the `outputDisabled` predicate);
  - the lookup of the module and theme update roots.
- A theme update root that is missing, or whose `asArray()` is not an array, is `None`, as the `is_array` test at Update.php:37 makes it. The module update root is always a list of nodes in the model. The case where `$updatesRoot->asArray()` at Update.php:35 returns a string, for a childless module root, is not modelled.
- `getLayoutFilename`, `is_readable`, reading the file, `str_replace` substitution and `simplexml_load_string` are oracle parameters (`locate`, `readable`, `parse`). The `<layouts>` document is returned as text, not parsed.
- `mergeConfig`, `getPrototype`, `getXml` and the `descend` getters (`getFrontendEvents` and the others) are not modelled as operations. `getFrontendEvents` appears only inside `FrontendEvents`.
