/**
 * The design tree the code generators read: a page layer and its nested `layers`,
 * each layer with an optional `css` style block and the `css__className` that the
 * annotation pass adds. `Layer` is the object the service mutates in place; `Tree`
 * is the value a layer and everything below it hold at one moment.
 */
module Layers {
  import opened Wrappers

  /** A layer's `css` block: style property to value. */
  type Style = map<string, string>

  /**
   * One layer as a value: its object id, its layer class (`_class` in the design
   * file), its style block if it has one, its generated class name if it has one,
   * and its child layers in stacking order. An absent `layers` array is the empty one.
   */
  datatype Tree = Tree(
    id: string,
    layerClass: string,
    css: Option<Style>,
    className: Option<string>,
    layers: seq<Tree>)

  /** A layer object. Only its class name ever changes; the tree below it is fixed. */
  class Layer {
    const id: string
    const layerClass: string
    const css: Option<Style>
    var className: Option<string>
    const layers: seq<Layer>
    /** This layer and every layer object below it. */
    ghost const Repr: set<Layer>

    /** The objects form a tree: no layer is shared by two parents or reachable from itself. */
    ghost predicate Valid()
      decreases Repr
    {
      && this in Repr
      && Repr == {this} + ReprOf(layers)
      && (forall i :: 0 <= i < |layers| ==>
            layers[i].Repr <= Repr && this !in layers[i].Repr && layers[i].Valid())
      && (forall i, j :: 0 <= i < j < |layers| ==> layers[i].Repr !! layers[j].Repr)
    }

    constructor (id: string, layerClass: string, css: Option<Style>, className: Option<string>, layers: seq<Layer>)
      requires forall i :: 0 <= i < |layers| ==> layers[i].Valid()
      requires forall i, j :: 0 <= i < j < |layers| ==> layers[i].Repr !! layers[j].Repr
      ensures Valid()
      ensures this.id == id && this.layerClass == layerClass && this.css == css
      ensures this.className == className && this.layers == layers
    {
      this.id := id;
      this.layerClass := layerClass;
      this.css := css;
      this.className := className;
      this.layers := layers;
      this.Repr := {this} + ReprOf(layers);
    }

    /** The tree this layer holds now. */
    function Value(): (t: Tree)
      requires Valid()
      reads Repr
      ensures t.id == id && t.layerClass == layerClass && t.css == css && t.className == className
      ensures |t.layers| == |layers|
      decreases Repr, 1
    {
      Tree(id, layerClass, css, className, ChildValues(|layers|))
    }

    /** The trees the first `n` children hold now; it does not read this layer itself. */
    function ChildValues(n: nat): (r: seq<Tree>)
      requires Valid() && n <= |layers|
      reads Repr - {this}
      ensures |r| == n
      ensures forall j :: 0 <= j < n ==> r[j] == layers[j].Value()
      decreases Repr, 0, n
    {
      if n == 0 then [] else ChildValues(n - 1) + [layers[n - 1].Value()]
    }
  }

  /** The tree a layer holds lists the trees its children hold. */
  lemma LayerValues(l: Layer)
    requires l.Valid()
    ensures forall j :: 0 <= j < |l.layers| ==> l.Value().layers[j] == l.layers[j].Value()
  {
  }

  /** A layer whose children hold the trees `children` holds the tree with those children. */
  lemma ValueIs(l: Layer, children: seq<Tree>)
    requires l.Valid() && |children| == |l.layers|
    requires forall j :: 0 <= j < |l.layers| ==> l.layers[j].Value() == children[j]
    ensures l.Value() == Tree(l.id, l.layerClass, l.css, l.className, children)
  {
    assert l.ChildValues(|l.layers|) == children;
  }

  /** A layer whose only change is its own class name holds the same tree renamed. */
  twostate lemma ValueRenamed(l: Layer)
    requires l.Valid()
    requires unchanged(l.Repr - {l})
    ensures l.Value() == old(l.Value()).(className := l.className)
  {
    assert l.ChildValues(|l.layers|) == old(l.ChildValues(|l.layers|));
  }

  /** Every layer object in the given subtrees. */
  ghost function ReprOf(ls: seq<Layer>): (r: set<Layer>)
    ensures forall i :: 0 <= i < |ls| ==> ls[i].Repr <= r
  {
    if ls == [] then {} else ReprOf(ls[..|ls| - 1]) + ls[|ls| - 1].Repr
  }

  /** The tree with every class name removed: what the annotation pass must leave alone. */
  function Erase(t: Tree): Tree
  {
    Tree(t.id, t.layerClass, t.css, None,
         seq(|t.layers|, i requires 0 <= i < |t.layers| => Erase(t.layers[i])))
  }

  /** The layer followed by all its descendants, in depth-first pre-order. */
  function Nodes(t: Tree): (r: seq<Tree>)
    ensures |r| >= 1 && r[0] == t
    decreases t, 1
  {
    [t] + Flatten(t.layers)
  }

  /** The pre-order listings of the given subtrees, one after another. */
  function Flatten(ls: seq<Tree>): seq<Tree>
    decreases ls, 0
  {
    if ls == [] then [] else Flatten(ls[..|ls| - 1]) + Nodes(ls[|ls| - 1])
  }

  /** Every layer strictly below the page, in the order the annotation pass visits them. */
  function Descendants(t: Tree): seq<Tree>
  {
    Flatten(t.layers)
  }

  /** How many of the listed layers carry a style block. */
  function StyledCount(nodes: seq<Tree>): (c: nat)
    ensures c <= |nodes|
  {
    if nodes == [] then 0
    else StyledCount(nodes[..|nodes| - 1]) + (if nodes[|nodes| - 1].css.Some? then 1 else 0)
  }

  lemma {:induction false} StyledCountAppend(a: seq<Tree>, b: seq<Tree>)
    ensures StyledCount(a + b) == StyledCount(a) + StyledCount(b)
  {
    if b != [] {
      StyledCountAppend(a, b[..|b| - 1]);
      assert (a + b)[..|a + b| - 1] == a + b[..|b| - 1];
    } else {
      assert a + b == a;
    }
  }
}
