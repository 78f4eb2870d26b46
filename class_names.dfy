/**
 * The annotation pass run on every new page: each styled layer strictly below the
 * page receives the class name `xly_` followed by a short random token, in
 * depth-first pre-order; nothing else in the tree changes.
 *
 * `Math.random()` is not modelled: the pass receives `draws`, where `draws(k)` is
 * the base-36 text of the k-th random number drawn (`Math.random().toString(36)`,
 * such as "0.4fzyo8"), and it reports how many it used.
 */
module ClassNames {
  import opened Wrappers
  import opened Layers
  import Js

  const ClassPrefix := "xly_"

  /** `randomString()`: characters 2 to 5 of the base-36 text of one random draw. */
  function RandomString(draw: string): (token: string)
    ensures |token| <= 4
    ensures |draw| >= 6 ==> token == draw[2..6]
    ensures 2 <= |draw| < 6 ==> token == draw[2..]
    ensures |draw| <= 2 ==> token == ""
  {
    Js.Substring(draw, 2, 6)
  }

  /** The class name built from one random draw. */
  function ClassName(draw: string): (name: string)
    ensures |ClassPrefix| <= |name| <= |ClassPrefix| + 4
    ensures name[..|ClassPrefix|] == ClassPrefix
    ensures name[|ClassPrefix|..] == RandomString(draw)
  {
    ClassPrefix + RandomString(draw)
  }

  /**
   * One entry of a `layers` array, visited from draw `k` on: stamped first when it
   * has a style block, then its own children visited. Returns the entry and the next
   * unused draw.
   */
  function AnnotatedEntry(t: Tree, draws: nat -> string, k: nat): (r: (Tree, nat))
    ensures r.0.id == t.id && r.0.layerClass == t.layerClass && r.0.css == t.css
    ensures |r.0.layers| == |t.layers|
    ensures r.0.className == if t.css.Some? then Some(ClassName(draws(k))) else t.className
    ensures (if t.css.Some? then k + 1 else k) <= r.1
    decreases t, 1
  {
    var (name, k1) := if t.css.Some? then (Some(ClassName(draws(k))), k + 1) else (t.className, k);
    var (children, k2) := AnnotatedLayers(t.layers, draws, k1);
    (t.(className := name, layers := children), k2)
  }

  /** A `layers` array visited entry by entry in order, from draw `k` on (`forEach`). */
  function AnnotatedLayers(ls: seq<Tree>, draws: nat -> string, k: nat): (r: (seq<Tree>, nat))
    ensures |r.0| == |ls|
    ensures k <= r.1
    decreases ls, 0
  {
    if ls == [] then ([], k)
    else
      var (front, k1) := AnnotatedLayers(ls[..|ls| - 1], draws, k);
      var (last, k2) := AnnotatedEntry(ls[|ls| - 1], draws, k1);
      (front + [last], k2)
  }

  /** `addCssClassNames(ast)`: only the entries of `layers` arrays are stamped, never `ast` itself. */
  function AnnotatedPage(ast: Tree, draws: nat -> string, k: nat): (r: (Tree, nat))
    ensures r.0.id == ast.id && r.0.layerClass == ast.layerClass && r.0.css == ast.css
    ensures r.0.className == ast.className
    ensures |r.0.layers| == |ast.layers|
    ensures k <= r.1
  {
    var (children, next) := AnnotatedLayers(ast.layers, draws, k);
    (ast.(layers := children), next)
  }

  /**
   * `after` is `before` (a pre-order listing) with every styled layer renamed from
   * the draws in visiting order, starting at draw `k`, and every other layer left as
   * it was; the shape, ids and styles of every listed subtree are unchanged.
   */
  ghost predicate StampedInOrder(before: seq<Tree>, after: seq<Tree>, draws: nat -> string, k: nat)
  {
    && |after| == |before|
    && forall i :: 0 <= i < |before| ==> StampedAt(before, after, draws, k, i)
  }

  /** Entry `i` of the listing: same subtree shape, renamed from its draw only when styled. */
  ghost predicate StampedAt(before: seq<Tree>, after: seq<Tree>, draws: nat -> string, k: nat, i: nat)
    requires i < |before| && i < |after|
  {
    && Erase(after[i]) == Erase(before[i])
    && after[i].className ==
         if before[i].css.Some? then Some(ClassName(draws(k + StyledCount(before[..i]))))
         else before[i].className
  }

  /** Annotation changes class names only: ids, styles, layer classes and child order stay. */
  lemma {:induction false} EntryKeepsShape(t: Tree, draws: nat -> string, k: nat)
    ensures Erase(AnnotatedEntry(t, draws, k).0) == Erase(t)
    decreases t, 1
  {
    var k1 := if t.css.Some? then k + 1 else k;
    LayersKeepShape(t.layers, draws, k1);
  }

  lemma {:induction false} LayersKeepShape(ls: seq<Tree>, draws: nat -> string, k: nat)
    ensures forall i :: 0 <= i < |ls| ==> Erase(AnnotatedLayers(ls, draws, k).0[i]) == Erase(ls[i])
    decreases ls, 0
  {
    if ls != [] {
      var (front, k1) := AnnotatedLayers(ls[..|ls| - 1], draws, k);
      LayersKeepShape(ls[..|ls| - 1], draws, k);
      EntryKeepsShape(ls[|ls| - 1], draws, k1);
    }
  }

  /** Pre-order listings compose: stamping two consecutive runs stamps their concatenation. */
  lemma {:induction false} StampedAppend(
    a: seq<Tree>, a': seq<Tree>, b: seq<Tree>, b': seq<Tree>, draws: nat -> string, k: nat)
    requires StampedInOrder(a, a', draws, k)
    requires StampedInOrder(b, b', draws, k + StyledCount(a))
    ensures StampedInOrder(a + b, a' + b', draws, k)
  {
    var before, after := a + b, a' + b';
    forall i | 0 <= i < |before|
      ensures StampedAt(before, after, draws, k, i)
    {
      if i < |a| {
        assert StampedAt(a, a', draws, k, i);
        assert before[..i] == a[..i];
      } else {
        var j := i - |a|;
        assert StampedAt(b, b', draws, k + StyledCount(a), j);
        assert before[i] == b[j] && after[i] == b'[j];
        assert before[..i] == a + b[..j];
        StyledCountAppend(a, b[..j]);
      }
    }
  }

  /**
   * The pass over a subtree entry visits it and then its descendants in pre-order,
   * spending exactly one draw per styled layer.
   */
  lemma {:induction false} EntryStampsInOrder(t: Tree, draws: nat -> string, k: nat)
    ensures StampedInOrder(Nodes(t), Nodes(AnnotatedEntry(t, draws, k).0), draws, k)
    ensures AnnotatedEntry(t, draws, k).1 == k + StyledCount(Nodes(t))
    decreases t, 1
  {
    var (t', k2) := AnnotatedEntry(t, draws, k);
    var k1 := if t.css.Some? then k + 1 else k;
    EntryKeepsShape(t, draws, k);
    assert StyledCount([t]) == k1 - k by {
      assert [t][..0] == [];
    }
    assert StampedInOrder([t], [t'], draws, k) by {
      assert [t][..0] == [];
    }
    LayersStampInOrder(t.layers, draws, k1);
    StampedAppend([t], [t'], Flatten(t.layers), Flatten(t'.layers), draws, k);
    StyledCountAppend([t], Flatten(t.layers));
  }

  lemma {:induction false} LayersStampInOrder(ls: seq<Tree>, draws: nat -> string, k: nat)
    ensures StampedInOrder(Flatten(ls), Flatten(AnnotatedLayers(ls, draws, k).0), draws, k)
    ensures AnnotatedLayers(ls, draws, k).1 == k + StyledCount(Flatten(ls))
    decreases ls, 0
  {
    if ls != [] {
      var front := ls[..|ls| - 1];
      var last := ls[|ls| - 1];
      var (front', k1) := AnnotatedLayers(front, draws, k);
      var (last', k2) := AnnotatedEntry(last, draws, k1);
      var ls' := front' + [last'];
      assert ls'[..|ls'| - 1] == front' && ls'[|ls'| - 1] == last';
      LayersStampInOrder(front, draws, k);
      EntryStampsInOrder(last, draws, k1);
      StampedAppend(Flatten(front), Flatten(front'), Nodes(last), Nodes(last'), draws, k);
      StyledCountAppend(Flatten(front), Nodes(last));
    }
  }

  /**
   * What annotating a page does: the page itself keeps its class name (styled or
   * not), its shape is untouched, and its descendants are stamped in pre-order, one
   * draw per styled descendant and no more.
   */
  lemma AnnotatedPageSpec(ast: Tree, draws: nat -> string, k: nat)
    ensures AnnotatedPage(ast, draws, k).0.className == ast.className
    ensures Erase(AnnotatedPage(ast, draws, k).0) == Erase(ast)
    ensures StampedInOrder(Descendants(ast), Descendants(AnnotatedPage(ast, draws, k).0), draws, k)
    ensures AnnotatedPage(ast, draws, k).1 == k + StyledCount(Descendants(ast))
  {
    LayersKeepShape(ast.layers, draws, k);
    LayersStampInOrder(ast.layers, draws, k);
  }

  /**
   * Two styled layers of one listing never draw the same random number: the later
   * one's draw index is strictly greater. So their class names differ whenever the
   * draws give different tokens (the pass itself does not check for collisions).
   */
  lemma {:induction false} DrawsNotReused(nodes: seq<Tree>, i: nat, j: nat)
    requires i < j < |nodes|
    requires nodes[i].css.Some?
    ensures StyledCount(nodes[..i]) < StyledCount(nodes[..j])
  {
    assert nodes[..j] == nodes[..i + 1] + nodes[i + 1..j];
    StyledCountAppend(nodes[..i + 1], nodes[i + 1..j]);
    assert nodes[..i + 1][..i] == nodes[..i];
  }

  /**
   * In one pass over a page, two styled descendants `i < j` (in visiting order) get
   * the class names of two different draws `p < q`, both among the draws the pass
   * consumed (`k` up to the next unused one).
   */
  lemma PassDrawsDistinct(ast: Tree, draws: nat -> string, k: nat, i: nat, j: nat)
    requires i < j < |Descendants(ast)|
    requires Descendants(ast)[i].css.Some? && Descendants(ast)[j].css.Some?
    ensures var before := Descendants(ast);
            var (page, next) := AnnotatedPage(ast, draws, k);
            var after := Descendants(page);
            var p, q := k + StyledCount(before[..i]), k + StyledCount(before[..j]);
            && |after| == |before|
            && after[i].className == Some(ClassName(draws(p)))
            && after[j].className == Some(ClassName(draws(q)))
            && k <= p < q < next
  {
    var before := Descendants(ast);
    AnnotatedPageSpec(ast, draws, k);
    var after := Descendants(AnnotatedPage(ast, draws, k).0);
    assert StampedAt(before, after, draws, k, i);
    assert StampedAt(before, after, draws, k, j);
    DrawsNotReused(before, i, j);
    StyledCountBelow(before, j);
  }

  /** A styled node is counted by the whole listing but not by the prefix before it. */
  lemma StyledCountBelow(nodes: seq<Tree>, j: nat)
    requires j < |nodes| && nodes[j].css.Some?
    ensures StyledCount(nodes[..j]) < StyledCount(nodes)
  {
    assert nodes == nodes[..j + 1] + nodes[j + 1..];
    StyledCountAppend(nodes[..j + 1], nodes[j + 1..]);
    assert nodes[..j + 1][..j] == nodes[..j];
  }

  /** The `forEach` one entry further: the prefix's result and the next entry's result. */
  lemma AnnotatedLayersSnoc(ls: seq<Tree>, i: nat, draws: nat -> string, k: nat)
    requires i < |ls|
    ensures AnnotatedLayers(ls[..i + 1], draws, k) ==
              var (done, k1) := AnnotatedLayers(ls[..i], draws, k);
              var (entry, k2) := AnnotatedEntry(ls[i], draws, k1);
              (done + [entry], k2)
  {
    assert ls[..i + 1][..i] == ls[..i] && ls[..i + 1][i] == ls[i];
  }

  /** Visiting an entry is renaming it from the next draw when styled, then annotating it as a page. */
  lemma EntryIsRenamedPage(t: Tree, draws: nat -> string, k: nat)
    ensures AnnotatedEntry(t, draws, k) ==
              if t.css.Some? then AnnotatedPage(t.(className := Some(ClassName(draws(k)))), draws, k + 1)
              else AnnotatedPage(t, draws, k)
  {
  }

  /**
   * `addCssClassNames(_ast)` as the service runs it: the `forEach` over `_ast.layers`
   * runs `VisitLayer` on each entry, in order. Returns `_ast` itself and the next
   * unused draw.
   */
  method AddCssClassNames(ast: Layer, draws: nat -> string, k: nat) returns (r: Layer, next: nat)
    requires ast.Valid()
    modifies ast.Repr
    ensures r == ast
    ensures (ast.Value(), next) == AnnotatedPage(old(ast.Value()), draws, k)
    decreases ast.Repr, 0
  {
    ghost var before := ast.Value().layers;
    LayerValues(ast);
    ghost var done: seq<Tree> := [];
    next := k;
    var i := 0;
    while i < |ast.layers|
      invariant 0 <= i <= |ast.layers|
      invariant ast.className == old(ast.className)
      invariant (done, next) == AnnotatedLayers(before[..i], draws, k)
      invariant forall j :: 0 <= j < |ast.layers| ==>
                  ast.layers[j].Value() == if j < i then done[j] else before[j]
    {
      AnnotatedLayersSnoc(before, i, draws, k);
      next := VisitLayer(ast, i, draws, next);
      done := done + [ast.layers[i].Value()];
      i := i + 1;
    }
    assert before[..i] == before;
    ValueIs(ast, done);
    r := ast;
  }

  /**
   * The `forEach` callback for entry `i` of `ast.layers`: when the entry has a style
   * block it gets the class name of draw `k`, then its own `layers` are annotated.
   * Returns the next unused draw; the other entries are not touched.
   */
  method VisitLayer(ast: Layer, i: nat, draws: nat -> string, k: nat) returns (next: nat)
    requires ast.Valid() && i < |ast.layers|
    modifies ast.layers[i].Repr
    ensures (ast.layers[i].Value(), next) == AnnotatedEntry(old(ast.layers[i].Value()), draws, k)
    ensures forall j :: 0 <= j < |ast.layers| && j != i ==>
              ast.layers[j].Value() == old(ast.layers[j].Value())
    decreases ast.layers[i].Repr, 1
  {
    var layer := ast.layers[i];
    next := k;
    if layer.css.Some? {
      layer.className := Some(ClassName(draws(next)));
      next := next + 1;
    }
    ValueRenamed(layer);
    ghost var renamed, drawn := layer.Value(), next;
    var _, after := AddCssClassNames(layer, draws, next);
    assert (layer.Value(), after) == AnnotatedPage(renamed, draws, drawn);
    EntryIsRenamedPage(old(layer.Value()), draws, k);
    next := after;
  }
}
