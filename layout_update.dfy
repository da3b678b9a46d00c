/**
 * `Linus_Iddqd_Model_Layout_Update`: builds the ordered list of layout update
 * files for a design, lets observers of `before_layoutxml_compile` change that
 * list, then concatenates the contents of the files it can read.
 */
module LayoutUpdate {
  import opened Wrappers
  import Bus

  /**
   * One `<updates>` child as `asArray()` gives it: the text of its `file`
   * element and its `module` attribute, absent when the node has none.
   */
  datatype UpdateNode = UpdateNode(file: string, moduleName: Option<string>)

  const LocalLayoutFile := "local.xml"
  const CompileEvent := "before_layoutxml_compile"
  const PayloadKey := "updates"

  /**
   * `array_merge($updates, array_values($themeUpdates))`: the theme's nodes,
   * when the design declares an update list, come after the modules' and
   * replace none of them.
   */
  function MergeUpdates(moduleUpdates: seq<UpdateNode>, themeUpdates: Option<seq<UpdateNode>>): (all: seq<UpdateNode>)
    ensures |moduleUpdates| <= |all| && all[..|moduleUpdates|] == moduleUpdates
    ensures all[|moduleUpdates|..] == if themeUpdates.Some? then themeUpdates.value else []
  {
    if themeUpdates.Some? then moduleUpdates + themeUpdates.value else moduleUpdates
  }

  /**
   * A node contributes no file when its file is empty, or when its module is
   * named and that module's output is disabled for the store.
   */
  predicate Skipped(u: UpdateNode, outputDisabled: string -> bool) {
    u.file == "" || (u.moduleName.Some? && u.moduleName.value != "" && outputDisabled(u.moduleName.value))
  }

  /** The files of the nodes that are not skipped, in node order. */
  function KeptFiles(updates: seq<UpdateNode>, outputDisabled: string -> bool): seq<string>
    decreases |updates|
  {
    if updates == [] then []
    else
      var n := |updates| - 1;
      KeptFiles(updates[..n], outputDisabled) + KeptFile(updates[n], outputDisabled)
  }

  /** What one node adds to the list: its file, unless it is skipped. */
  function KeptFile(u: UpdateNode, outputDisabled: string -> bool): seq<string> {
    if Skipped(u, outputDisabled) then [] else [u.file]
  }

  /** The positions of the nodes that are not skipped, in increasing order. */
  function KeptIndices(updates: seq<UpdateNode>, outputDisabled: string -> bool): seq<nat>
    decreases |updates|
  {
    if updates == [] then []
    else
      var n := |updates| - 1;
      KeptIndices(updates[..n], outputDisabled) + if Skipped(updates[n], outputDisabled) then [] else [n]
  }

  /**
   * Lines 35-52 of `getFileLayoutUpdatesXml`: the file list handed to the
   * event is the kept files of the merged nodes, then "local.xml".
   */
  method UpdateFilesBeforeEvent(moduleUpdates: seq<UpdateNode>, themeUpdates: Option<seq<UpdateNode>>, outputDisabled: string -> bool)
    returns (updateFiles: seq<string>)
    ensures updateFiles == KeptFiles(MergeUpdates(moduleUpdates, themeUpdates), outputDisabled) + [LocalLayoutFile]
  {
    var updates := moduleUpdates;
    if themeUpdates.Some? {
      updates := updates + themeUpdates.value;
    }
    updateFiles := [];
    var i := 0;
    while i < |updates|
      invariant 0 <= i <= |updates|
      invariant updateFiles == KeptFiles(updates[..i], outputDisabled)
    {
      var updateNode := updates[i];
      assert updates[..i + 1][..i] == updates[..i];
      i := i + 1;
      if updateNode.file != "" {
        var moduleName := updateNode.moduleName;
        if moduleName.Some? && moduleName.value != "" && outputDisabled(moduleName.value) {
          continue;
        }
        updateFiles := updateFiles + [updateNode.file];
      }
    }
    assert updates[..i] == updates;
    updateFiles := updateFiles + [LocalLayoutFile];
  }

  // ---- Properties of the file list ----

  /** The kept files of two node lists in a row are the kept files of each, in a row. */
  lemma {:induction false} KeptFilesAppend(a: seq<UpdateNode>, b: seq<UpdateNode>, outputDisabled: string -> bool)
    ensures KeptFiles(a + b, outputDisabled) == KeptFiles(a, outputDisabled) + KeptFiles(b, outputDisabled)
    decreases |b|
  {
    if b == [] {
      assert a + b == a;
    } else {
      var n := |b| - 1;
      var ab := a + b;
      assert ab[..|ab| - 1] == a + b[..n];
      assert ab[|ab| - 1] == b[n];
      assert KeptFiles(ab, outputDisabled) == KeptFiles(a + b[..n], outputDisabled) + KeptFile(b[n], outputDisabled);
      KeptFilesAppend(a, b[..n], outputDisabled);
    }
  }

  /**
   * The kept files are a subsequence of the nodes' files: file `j` comes from
   * node `KeptIndices[j]`, those positions increase, and every node that is
   * not skipped is among them.
   */
  lemma {:induction false} KeptFilesSubsequence(updates: seq<UpdateNode>, outputDisabled: string -> bool)
    ensures var files, idx := KeptFiles(updates, outputDisabled), KeptIndices(updates, outputDisabled);
      && |idx| == |files|
      && (forall j :: 0 <= j < |idx| ==> idx[j] < |updates| && !Skipped(updates[idx[j]], outputDisabled) && files[j] == updates[idx[j]].file)
      && (forall j, j' :: 0 <= j < j' < |idx| ==> idx[j] < idx[j'])
      && (forall k :: 0 <= k < |updates| && !Skipped(updates[k], outputDisabled) ==> k in idx)
    decreases |updates|
  {
    if updates != [] {
      var n := |updates| - 1;
      var prefix := updates[..n];
      KeptFilesSubsequence(prefix, outputDisabled);
      var files, idx := KeptFiles(prefix, outputDisabled), KeptIndices(prefix, outputDisabled);
      forall j | 0 <= j < |idx|
        ensures updates[idx[j]] == prefix[idx[j]]
      {
      }
      forall k | 0 <= k < n && !Skipped(updates[k], outputDisabled)
        ensures k in idx
      {
        assert prefix[k] == updates[k];
      }
    }
  }

  /** A file is listed exactly when some node that is not skipped names it. */
  lemma KeptFilesMembership(updates: seq<UpdateNode>, outputDisabled: string -> bool, f: string)
    ensures f in KeptFiles(updates, outputDisabled)
      <==> exists k :: 0 <= k < |updates| && !Skipped(updates[k], outputDisabled) && updates[k].file == f
  {
    KeptFilesSubsequence(updates, outputDisabled);
    var files, idx := KeptFiles(updates, outputDisabled), KeptIndices(updates, outputDisabled);
    if f in files {
      var j :| 0 <= j < |files| && files[j] == f;
      assert !Skipped(updates[idx[j]], outputDisabled) && updates[idx[j]].file == f;
    }
    if exists k :: 0 <= k < |updates| && !Skipped(updates[k], outputDisabled) && updates[k].file == f {
      var k :| 0 <= k < |updates| && !Skipped(updates[k], outputDisabled) && updates[k].file == f;
      var j :| 0 <= j < |idx| && idx[j] == k;
      assert files[j] == f;
    }
  }

  /** Before the event the list holds at most one file per node, plus "local.xml", which is last. */
  lemma FilesBeforeEventBound(moduleUpdates: seq<UpdateNode>, themeUpdates: Option<seq<UpdateNode>>, outputDisabled: string -> bool)
    ensures var all := MergeUpdates(moduleUpdates, themeUpdates);
      var files := KeptFiles(all, outputDisabled) + [LocalLayoutFile];
      |files| <= |all| + 1 && files[|files| - 1] == LocalLayoutFile
  {
    var all := MergeUpdates(moduleUpdates, themeUpdates);
    KeptFilesSubsequence(all, outputDisabled);
    var idx := KeptIndices(all, outputDisabled);
    IncreasingBelowBound(idx, |all|);
  }

  /** A strictly increasing sequence of naturals below `bound` has at most `bound` elements. */
  lemma {:induction false} IncreasingBelowBound(idx: seq<nat>, bound: nat)
    requires forall j :: 0 <= j < |idx| ==> idx[j] < bound
    requires forall j, j' :: 0 <= j < j' < |idx| ==> idx[j] < idx[j']
    ensures |idx| <= bound
    decreases bound
  {
    if idx != [] {
      var last := idx[|idx| - 1];
      var prefix := idx[..|idx| - 1];
      forall j | 0 <= j < |prefix|
        ensures prefix[j] < last
      {
      }
      IncreasingBelowBound(prefix, last);
    }
  }

  /** Every theme file that survives the filter is listed after every module file that does. */
  lemma ThemeFilesAfterModuleFiles(moduleUpdates: seq<UpdateNode>, themeUpdates: seq<UpdateNode>, outputDisabled: string -> bool)
    ensures KeptFiles(MergeUpdates(moduleUpdates, Some(themeUpdates)), outputDisabled)
      == KeptFiles(moduleUpdates, outputDisabled) + KeptFiles(themeUpdates, outputDisabled)
  {
    KeptFilesAppend(moduleUpdates, themeUpdates, outputDisabled);
  }

  // ---- The before_layoutxml_compile event ----

  /** The payload object whose `update_files` observers read and set. */
  class UpdateFilesPayload {
    var updateFiles: seq<string>

    constructor(updateFiles: seq<string>)
      ensures this.updateFiles == updateFiles
    {
      this.updateFiles := updateFiles;
    }
  }

  /** An observer that calls `addLayoutUpdate` with `newFile`, as a transformer of the list. */
  function Appender(newFile: string): Bus.Observer<seq<string>> {
    (e: Bus.Event<seq<string>>) => e.data + [newFile]
  }

  /** One `Appender` per file, in order. */
  function Appenders(newFiles: seq<string>): seq<Bus.Observer<seq<string>>> {
    seq(|newFiles|, k requires 0 <= k < |newFiles| => Appender(newFiles[k]))
  }

  /** The list read back from the payload after dispatch. */
  function UpdateFilesAfterEvent(observers: seq<Bus.Observer<seq<string>>>, updateFiles: seq<string>): seq<string> {
    Bus.Dispatch(observers, Bus.Event(CompileEvent, PayloadKey, updateFiles))
  }

  /**
   * `addLayoutUpdate($observer, $newFile)`: the payload's list becomes what an
   * `Appender(newFile)` observer leaves, the old list with `newFile` appended.
   */
  method AddLayoutUpdate(updates: UpdateFilesPayload, newFile: string)
    modifies updates
    ensures updates.updateFiles == Appender(newFile)(Bus.Event(CompileEvent, PayloadKey, old(updates.updateFiles)))
    ensures updates.updateFiles == old(updates.updateFiles) + [newFile]
  {
    var files := updates.updateFiles;
    files := files + [newFile];
    updates.updateFiles := files;
  }

  /**
   * Observers calling `addLayoutUpdate` on the payload one after another,
   * each with its own file: the payload ends as the event leaves it for the
   * matching `Appender` observers.
   */
  method InjectLayoutUpdates(updates: UpdateFilesPayload, newFiles: seq<string>)
    modifies updates
    ensures updates.updateFiles == UpdateFilesAfterEvent(Appenders(newFiles), old(updates.updateFiles))
  {
    ghost var start := updates.updateFiles;
    var i := 0;
    while i < |newFiles|
      invariant 0 <= i <= |newFiles|
      invariant updates.updateFiles == start + newFiles[..i]
    {
      AddLayoutUpdate(updates, newFiles[i]);
      assert newFiles[..i + 1] == newFiles[..i] + [newFiles[i]];
      i := i + 1;
    }
    assert newFiles[..i] == newFiles;
    AppendersAppend(start, newFiles);
  }

  /** With no observer the list comes back unchanged. */
  lemma NoObserverKeepsList(updateFiles: seq<string>)
    ensures UpdateFilesAfterEvent([], updateFiles) == updateFiles
  {
    Bus.DispatchNone(Bus.Event(CompileEvent, PayloadKey, updateFiles));
  }

  /** Observers that each append one file leave the list followed by those files, in order. */
  lemma {:induction false} AppendersAppend(updateFiles: seq<string>, newFiles: seq<string>)
    ensures UpdateFilesAfterEvent(Appenders(newFiles), updateFiles)
      == updateFiles + newFiles
    decreases |newFiles|
  {
    var observers := Appenders(newFiles);
    if newFiles != [] {
      var n := |newFiles| - 1;
      var front := Appenders(newFiles[..n]);
      assert observers == front + [Appender(newFiles[n])];
      AppendersAppend(updateFiles, newFiles[..n]);
      Bus.DispatchLast(front, Appender(newFiles[n]), Bus.Event(CompileEvent, PayloadKey, updateFiles));
      assert newFiles == newFiles[..n] + [newFiles[n]];
    }
  }

  /** An observer that only ever appends to the list. */
  ghost predicate AppendOnly(o: Bus.Observer<seq<string>>) {
    forall e: Bus.Event<seq<string>> :: e.data <= o(e)
  }

  /** Observers that only append keep the list built before the event, "local.xml" included, as a prefix. */
  lemma {:induction false} AppendOnlyKeepsPrefix(observers: seq<Bus.Observer<seq<string>>>, updateFiles: seq<string>)
    requires forall k :: 0 <= k < |observers| ==> AppendOnly(observers[k])
    ensures updateFiles <= UpdateFilesAfterEvent(observers, updateFiles)
    decreases |observers|
  {
    if observers != [] {
      var e := Bus.Event(CompileEvent, PayloadKey, updateFiles);
      var next := observers[0](e);
      assert AppendOnly(observers[0]);
      assert updateFiles <= next;
      assert forall k :: 0 <= k < |observers[1..]| ==> AppendOnly(observers[1..][k]) by {
        forall k | 0 <= k < |observers[1..]|
          ensures AppendOnly(observers[1..][k])
        {
          assert observers[1..][k] == observers[k + 1];
        }
      }
      AppendOnlyKeepsPrefix(observers[1..], next);
    }
  }

  // ---- Loading the files ----

  /**
   * The text contributed by the files in order. For each file, `locate` gives
   * `getLayoutFilename` for the design, `readable` stands for `is_readable`, and
   * `parse` for reading, substituting and parsing (absent when the result is
   * not an element, otherwise its inner XML).
   */
  function LayoutBody(files: seq<string>, locate: string -> string, readable: string -> bool, parse: string -> Option<string>): string
    decreases |files|
  {
    if files == [] then ""
    else
      var n := |files| - 1;
      LayoutBody(files[..n], locate, readable, parse) + FilePiece(files[n], locate, readable, parse)
  }

  /** What one file adds: its inner XML when it can be read and parsed, nothing otherwise. */
  function FilePiece(file: string, locate: string -> string, readable: string -> bool, parse: string -> Option<string>): string {
    var filename := locate(file);
    if readable(filename) && parse(filename).Some? then parse(filename).value else ""
  }

  /** Lines 68-85: the files' inner XML concatenated in list order, unreadable and unparseable files skipped. */
  method CombineLayoutFiles(updateFiles: seq<string>, locate: string -> string, readable: string -> bool, parse: string -> Option<string>)
    returns (layoutStr: string)
    ensures layoutStr == LayoutBody(updateFiles, locate, readable, parse)
  {
    layoutStr := "";
    var i := 0;
    while i < |updateFiles|
      invariant 0 <= i <= |updateFiles|
      invariant layoutStr == LayoutBody(updateFiles[..i], locate, readable, parse)
    {
      var file := updateFiles[i];
      assert updateFiles[..i + 1][..i] == updateFiles[..i];
      i := i + 1;
      var filename := locate(file);
      if !readable(filename) {
        continue;
      }
      var fileXml := parse(filename);
      if fileXml.None? {
        continue;
      }
      layoutStr := layoutStr + fileXml.value;
    }
    assert updateFiles[..i] == updateFiles;
  }

  /** The text of two file lists in a row is the text of each, in a row. */
  lemma {:induction false} LayoutBodyAppend(a: seq<string>, b: seq<string>, locate: string -> string, readable: string -> bool, parse: string -> Option<string>)
    ensures LayoutBody(a + b, locate, readable, parse) == LayoutBody(a, locate, readable, parse) + LayoutBody(b, locate, readable, parse)
    decreases |b|
  {
    if b == [] {
      assert a + b == a;
    } else {
      var n := |b| - 1;
      var ab := a + b;
      assert ab[..|ab| - 1] == a + b[..n];
      assert ab[|ab| - 1] == b[n];
      assert LayoutBody(ab, locate, readable, parse)
        == LayoutBody(a + b[..n], locate, readable, parse) + FilePiece(b[n], locate, readable, parse);
      LayoutBodyAppend(a, b[..n], locate, readable, parse);
      var piece := FilePiece(b[n], locate, readable, parse);
      assert LayoutBody(b, locate, readable, parse) == LayoutBody(b[..n], locate, readable, parse) + piece;
      assert (LayoutBody(a, locate, readable, parse) + LayoutBody(b[..n], locate, readable, parse)) + piece
        == LayoutBody(a, locate, readable, parse) + (LayoutBody(b[..n], locate, readable, parse) + piece);
    }
  }

  /** A file that cannot be read, or does not parse, may be dropped from the list without changing the text. */
  lemma SkippedFileContributesNothing(a: seq<string>, f: string, b: seq<string>, locate: string -> string, readable: string -> bool, parse: string -> Option<string>)
    requires !readable(locate(f)) || parse(locate(f)).None?
    ensures LayoutBody(a + [f] + b, locate, readable, parse) == LayoutBody(a + b, locate, readable, parse)
  {
    LayoutBodyAppend(a + [f], b, locate, readable, parse);
    LayoutBodyAppend(a, [f], locate, readable, parse);
    LayoutBodyAppend(a, b, locate, readable, parse);
    assert [f][..0] == [];
  }

  /**
   * `getFileLayoutUpdatesXml`: the update list is built, passed through
   * `before_layoutxml_compile`, and the readable files' inner XML is wrapped
   * in a `<layouts>` element.
   */
  method GetFileLayoutUpdatesXml(moduleUpdates: seq<UpdateNode>, themeUpdates: Option<seq<UpdateNode>>, outputDisabled: string -> bool,
                                 observers: seq<Bus.Observer<seq<string>>>,
                                 locate: string -> string, readable: string -> bool, parse: string -> Option<string>)
    returns (layoutXml: string)
    ensures var before := KeptFiles(MergeUpdates(moduleUpdates, themeUpdates), outputDisabled) + [LocalLayoutFile];
      layoutXml == "<layouts>" + LayoutBody(UpdateFilesAfterEvent(observers, before), locate, readable, parse) + "</layouts>"
  {
    var updateFiles := UpdateFilesBeforeEvent(moduleUpdates, themeUpdates, outputDisabled);
    var eventData := new UpdateFilesPayload(updateFiles);
    eventData.updateFiles := Bus.Dispatch(observers, Bus.Event(CompileEvent, PayloadKey, eventData.updateFiles));
    updateFiles := eventData.updateFiles;
    var layoutStr := CombineLayoutFiles(updateFiles, locate, readable, parse);
    layoutXml := "<layouts>" + layoutStr + "</layouts>";
  }

  // ---- Worked examples ----

  function NoneDisabled(): string -> bool {
    m => false
  }

  function ModuleUpdates(): seq<UpdateNode> {
    [UpdateNode("a.xml", Some("Module_A")), UpdateNode("b.xml", Some("Module_B"))]
  }

  /** Two modules and a theme, no observer: [a.xml, b.xml, t.xml, local.xml]. */
  lemma ResourceListOrderingExample()
    ensures UpdateFilesAfterEvent([], KeptFiles(MergeUpdates(ModuleUpdates(), Some([UpdateNode("t.xml", None)])), NoneDisabled()) + [LocalLayoutFile])
      == ["a.xml", "b.xml", "t.xml", "local.xml"]
  {
    var all := MergeUpdates(ModuleUpdates(), Some([UpdateNode("t.xml", None)]));
    assert all[..|all| - 1] == all[..2] && all[..2][..1] == [all[0]] && [all[0]][..0] == [];
    NoObserverKeepsList(KeptFiles(all, NoneDisabled()) + [LocalLayoutFile]);
  }

  /** Module A's output disabled: a.xml is gone, the rest keeps its order. */
  lemma DisabledModuleExample()
    ensures KeptFiles(MergeUpdates(ModuleUpdates(), Some([UpdateNode("t.xml", None)])), m => m == "Module_A") + [LocalLayoutFile]
      == ["b.xml", "t.xml", "local.xml"]
  {
    var all := MergeUpdates(ModuleUpdates(), Some([UpdateNode("t.xml", None)]));
    assert all[..|all| - 1] == all[..2] && all[..2][..1] == [all[0]] && [all[0]][..0] == [];
  }

  /** An observer appending extra.xml: the list ends with local.xml, extra.xml. */
  lemma ListenerAppendExample(updateFiles: seq<string>)
    ensures UpdateFilesAfterEvent([Appender("extra.xml")], updateFiles + [LocalLayoutFile])
      == updateFiles + [LocalLayoutFile, "extra.xml"]
  {
    AppendersAppend(updateFiles + [LocalLayoutFile], ["extra.xml"]);
    assert Appenders(["extra.xml"]) == [Appender("extra.xml")];
  }
}
