/**
 * The configuration XML held by Magento's config object: every element has a
 * text value and uniquely named children. Lookups are pure; `Graft` and
 * `SetNode` are the only ways a tree changes.
 */
module ConfigTree {
  import opened Wrappers
  import Strings

  datatype Node = Node(text: string, children: map<string, Node>)

  /** A text-only element, as `<type>disabled</type>`. */
  function Leaf(text: string): Node {
    Node(text, map[])
  }

  /** `$node->$name`: the child of that name, or absent. */
  function Child(n: Node, name: string): Option<Node> {
    if name in n.children then Some(n.children[name]) else None
  }

  /** Follows `path` child by child; absent as soon as one step is missing. */
  function Descend(n: Node, path: seq<string>): Option<Node>
    decreases |path|
  {
    if path == [] then Some(n)
    else match Child(n, path[0])
      case None => None
      case Some(c) => Descend(c, path[1..])
  }

  /** Descending along `p + q` is descending along `p`, then along `q`. */
  lemma {:induction false} DescendAppend(n: Node, p: seq<string>, q: seq<string>)
    ensures Descend(n, p + q) == match Descend(n, p) case None => None case Some(m) => Descend(m, q)
    decreases |p|
  {
    if p != [] {
      assert (p + q)[0] == p[0] && (p + q)[1..] == p[1..] + q;
      if p[0] in n.children {
        DescendAppend(n.children[p[0]], p[1..], q);
      }
    } else {
      assert p + q == q;
    }
  }

  /**
   * Puts `sub` at `path`, creating every missing element on the way (with
   * empty text); afterwards `path` leads to `sub`.
   */
  function Graft(t: Node, path: seq<string>, sub: Node): (r: Node)
    ensures Descend(r, path) == Some(sub)
    ensures path != [] ==> r.text == t.text
    decreases |path|
  {
    if path == [] then sub
    else
      var c := if path[0] in t.children then t.children[path[0]] else Leaf("");
      Node(t.text, t.children[path[0] := Graft(c, path[1..], sub)])
  }

  /** Nothing on a path that parts from `p` at some position changes. */
  lemma {:induction false} GraftFrame(t: Node, p: seq<string>, sub: Node, q: seq<string>, i: nat)
    requires i < |p| && i < |q| && p[i] != q[i]
    ensures Descend(Graft(t, p, sub), q) == Descend(t, q)
    decreases i
  {
    if p[0] == q[0] {
      var c := if p[0] in t.children then t.children[p[0]] else Leaf("");
      GraftFrame(c, p[1..], sub, q[1..], i - 1);
      if p[0] !in t.children {
        assert q[1..] != [];
        assert Descend(c, q[1..]) == None;
      }
    }
  }

  /** Grafting twice at the same path keeps only the second graft. */
  lemma {:induction false} GraftTwice(t: Node, p: seq<string>, a: Node, b: Node)
    ensures Graft(Graft(t, p, a), p, b) == Graft(t, p, b)
    decreases |p|
  {
    if p != [] {
      var c := if p[0] in t.children then t.children[p[0]] else Leaf("");
      GraftTwice(c, p[1..], a, b);
    }
  }

  /** Grafting what is already there changes nothing. */
  lemma {:induction false} GraftSame(t: Node, p: seq<string>, s: Node)
    requires Descend(t, p) == Some(s)
    ensures Graft(t, p, s) == t
    decreases |p|
  {
    if p != [] {
      GraftSame(t.children[p[0]], p[1..], s);
      assert t.children[p[0] := t.children[p[0]]] == t.children;
    }
  }

  /** The non-empty segments of a slash-separated XML path, in order. */
  function Segments(path: string): (segs: seq<string>)
    ensures forall k :: 0 <= k < |segs| ==> segs[k] != "" && '/' !in segs[k]
  {
    NonEmpty(Strings.Explode(path, '/'))
  }

  function NonEmpty(parts: seq<string>): (r: seq<string>)
    ensures forall k :: 0 <= k < |r| ==> r[k] != "" && r[k] in parts
    ensures (forall k :: 0 <= k < |parts| ==> parts[k] != "") ==> r == parts
  {
    if parts == [] then []
    else if parts[0] == "" then NonEmpty(parts[1..])
    else [parts[0]] + NonEmpty(parts[1..])
  }

  /**
   * `setNode($path, $value)`: the element at `path` becomes a text-only
   * element holding `value`; a path with no segments changes nothing.
   */
  function SetNode(t: Node, path: string, value: string): (r: Node)
    ensures Segments(path) != [] ==> Descend(r, Segments(path)) == Some(Leaf(value))
    ensures Segments(path) == [] ==> r == t
  {
    var segs := Segments(path);
    if segs == [] then t else Graft(t, segs, Leaf(value))
  }
}
