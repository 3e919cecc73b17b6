/** The budget fitting of prompts/renderer.py on mutable values: strings are cut in a copy, and list items are
    popped from the copy in place. */
module PromptNodes {
  import opened PromptBudget

  /** What kind of value a node is; strings and other leaves have no children. */
  datatype Shape = DictShape(keys: seq<string>) | ListShape | TupleShape | StrShape(s: string) | LeafShape(text: string)

  function Make(shape: Shape, children: seq<Value>): Value {
    match shape
    case DictShape(keys) => Dict(keys, children)
    case ListShape => List(children)
    case TupleShape => Tuple(children)
    case StrShape(s) => Str(s)
    case LeafShape(text) => Leaf(text)
  }

  predicate Branches(shape: Shape) { shape.DictShape? || shape.ListShape? || shape.TupleShape? }

  /** A dict, list, tuple or leaf object. Two places of a value may hold the same object, but none is below
      itself. */
  class Node {
    const shape: Shape
    var children: seq<Node>
    ghost var Repr: set<Node>

    ghost predicate Valid()
      reads this, Repr
      decreases Repr
    {
      && this in Repr && (Branches(shape) || children == [])
      && (forall i :: 0 <= i < |children| ==>
            children[i] in Repr && children[i].Repr <= Repr - {this} && children[i].Valid())
    }

    /** No two places hold the same object. */
    ghost predicate Tree()
      reads this, Repr
      decreases Repr
    {
      && Valid() && (forall i :: 0 <= i < |children| ==> children[i].Tree())
      && (forall i, j :: 0 <= i < j < |children| ==> children[i].Repr !! children[j].Repr)
    }

    ghost function Model(): Value
      requires Valid()
      reads this, Repr
      decreases Repr
    {
      Make(shape, seq(|children|, i requires 0 <= i < |children| && Valid() reads this, Repr => children[i].Model()))
    }

    /** `parts` are the nodes below. */
    constructor (shape: Shape, children: seq<Node>, ghost parts: set<Node>)
      requires (Branches(shape) || children == []) && Forest(children, parts)
      ensures Tree() && this.shape == shape && this.children == children && Repr == {this} + parts
    {
      this.shape, this.children, Repr := shape, children, {this} + parts;
    }
  }

  /** Trees with disjoint parts, all within `parts`. */
  ghost predicate Forest(nodes: seq<Node>, parts: set<Node>)
    reads parts
  {
    && (forall i :: 0 <= i < |nodes| ==> nodes[i] in parts && nodes[i].Repr <= parts && nodes[i].Tree())
    && (forall i, j :: 0 <= i < j < |nodes| ==> nodes[i].Repr !! nodes[j].Repr)
  }

  lemma ForestSnoc(nodes: seq<Node>, parts: set<Node>, node: Node)
    requires Forest(nodes, parts) && node.Tree() && node.Repr !! parts
    ensures Forest(nodes + [node], parts + node.Repr)
  {
  }

  /** The values of a node's children. */
  lemma ChildModels(n: Node)
    requires n.Valid() && Branches(n.shape)
    ensures n.Model() == Make(n.shape, n.Model().children) && |n.Model().children| == |n.children|
    ensures forall i :: 0 <= i < |n.children| ==> n.Model().children[i] == n.children[i].Model()
  {
  }

  /** Popping the last child of a list. */
  method Pop(n: Node)
    requires n.Tree() && n.shape.ListShape? && n.children != []
    modifies n
    ensures n.Tree() && n.Repr == old(n.Repr)
    ensures n.Model() == List(old(n.Model()).children[..|old(n.children)| - 1])
  {
    ghost var before := n.Model();
    n.children := n.children[..|n.children| - 1];
    assert n.Model().children == before.children[..|before.children| - 1];
  }

  /** `_drop_last_list_item`, popping from the list itself. */
  method DropInPlace(n: Node) returns (dropped: bool)
    requires n.Tree()
    modifies n.Repr
    ensures n.Tree() && n.Repr == old(n.Repr)
    ensures dropped <==> Items(old(n.Model())) > 0
    ensures if dropped then LastDropped(old(n.Model()), n.Model()) else n.Model() == old(n.Model())
    decreases n.Repr, 2
  {
    if n.shape.TupleShape? || !Branches(n.shape) { return false; }
    ghost var before := n.Model();
    dropped := DropInChildren(n);
    if !dropped && n.shape.ListShape? && n.children != [] {
      Pop(n);
      return true;
    }
  }

  /** Trying one child. */
  method DropInChild(n: Node, i: nat) returns (dropped: bool)
    requires n.Tree() && Branches(n.shape) && i < |n.children|
    modifies n.Repr
    ensures n.Tree() && unchanged(n)
    ensures dropped <==> Items(old(n.children[i].Model())) > 0
    ensures dropped ==> LastDropped(old(n.children[i].Model()), n.children[i].Model())
    ensures !dropped ==> n.children[i].Model() == old(n.children[i].Model())
    ensures n.Model() == Make(n.shape, old(n.Model()).children[i := n.children[i].Model()])
    decreases n.Repr, 0
  {
    dropped := DropInPlace(n.children[i]);
  }

  method DropInChildren(n: Node) returns (dropped: bool)
    requires n.Tree() && Branches(n.shape)
    modifies n.Repr
    ensures n.Tree() && n.Repr == old(n.Repr) && n.children == old(n.children)
    ensures dropped <==> AllItems(old(n.Model()).children) > 0
    ensures dropped ==> n.Model() == Make(n.shape, n.Model().children)
                        && LastDroppedIn(old(n.Model()).children, n.Model().children)
    ensures !dropped ==> n.Model() == old(n.Model())
    decreases n.Repr, 1
  {
    ghost var model := n.Model();
    var i := |n.children|;
    ChildModels(n);
    assert model.children[i..] == [];
    while i > 0
      invariant 0 <= i <= |n.children| && n.Tree() && n.children == old(n.children) && n.Repr == old(n.Repr)
      invariant n.Model() == model && AllItems(model.children[i..]) == 0
    {
      i := i - 1;
      ChildModels(n);
      AllItemsSplit(model.children, i);
      var childDropped := DropInChild(n, i);
      if childDropped {
        DropAt(model.children, i, n.children[i].Model());
        return true;
      }
      assert model.children[i := model.children[i]] == model.children;
    }
    assert model.children[0..] == model.children;
    return false;
  }

  /** The value that is printed to be measured. */
  method Snapshot(n: Node) returns (v: Value)
    requires n.Valid()
    ensures v == n.Model()
    decreases n.Repr
  {
    var vs: seq<Value> := [];
    for i := 0 to |n.children|
      invariant |vs| == i && forall k :: 0 <= k < i ==> vs[k] == n.children[k].Model()
    {
      var child := Snapshot(n.children[i]);
      vs := vs + [child];
    }
    v := Make(n.shape, vs);
    if Branches(n.shape) {
      ChildModels(n);
      assert vs == n.Model().children;
    }
  }

  function CutShape(shape: Shape, cap: nat): Shape {
    if shape.StrShape? then StrShape(Cut(shape.s, cap)) else shape
  }

  lemma {:induction false} BoundedAt(vs: seq<Value>, cap: nat, ws: seq<Value>)
    requires |ws| == |vs| && forall k :: 0 <= k < |vs| ==> ws[k] == BoundStrings(vs[k], cap)
    ensures ws == BoundAll(vs, cap)
  {
    if vs != [] { BoundedAt(vs[1..], cap, ws[1..]); }
  }

  /** `_bound_strings`: a copy, of which nothing belongs to the value copied. */
  method BoundCopy(n: Node, cap: nat) returns (copy: Node)
    requires n.Valid()
    ensures copy.Tree() && fresh(copy.Repr) && copy.Model() == BoundStrings(n.Model(), cap)
    decreases n.Repr, 1
  {
    var copies, parts := BoundChildren(n, cap);
    copy := new Node(CutShape(n.shape, cap), copies, parts);
    if Branches(n.shape) {
      ChildModels(n);
      ChildModels(copy);
      BoundedAt(n.Model().children, cap, copy.Model().children);
    }
  }

  method BoundChildren(n: Node, cap: nat) returns (copies: seq<Node>, ghost parts: set<Node>)
    requires n.Valid()
    ensures |copies| == |n.children| && fresh(parts) && Forest(copies, parts)
    ensures forall k :: 0 <= k < |copies| ==> copies[k].Model() == BoundStrings(n.children[k].Model(), cap)
    decreases n.Repr, 0
  {
    copies, parts := [], {};
    for i := 0 to |n.children|
      invariant |copies| == i && fresh(parts) && Forest(copies, parts)
      invariant forall k :: 0 <= k < i ==> copies[k].Model() == BoundStrings(n.children[k].Model(), cap)
    {
      var child := BoundCopy(n.children[i], cap);
      ForestSnoc(copies, parts, child);
      copies, parts := copies + [child], parts + child.Repr;
    }
  }

  /** One copy with strings cut, and whether it fits. */
  method TryCap(size: Value -> nat, value: Node, maxChars: nat, cap: nat) returns (bounded: Node, fits: bool)
    requires value.Valid()
    ensures bounded.Tree() && fresh(bounded.Repr) && bounded.Model() == BoundStrings(value.Model(), cap)
    ensures Shrunk(value.Model(), bounded.Model())
    ensures fits <==> size(bounded.Model()) <= maxChars
  {
    bounded := BoundCopy(value, cap);
    BoundShrinks(value.Model(), cap);
    var now := Snapshot(bounded);
    fits := size(now) <= maxChars;
  }

  /** Cutting strings at smaller and smaller caps, each time in a new copy. */
  method CutUntilFit(size: Value -> nat, value: Node, maxChars: nat) returns (bounded: Node, fits: bool)
    requires value.Valid() && size(value.Model()) > maxChars
    ensures bounded.Tree() && fresh(bounded.Repr) && Shrunk(value.Model(), bounded.Model())
    ensures fits ==> exists n: nat :: FitsAt(TooLarge(size, maxChars), value.Model(), bounded.Model(), n)
    ensures !fits ==> NoneFits(TooLarge(size, maxChars), value.Model(), |CAPS|)
    ensures !fits ==> bounded.Model() == BoundStrings(value.Model(), 80)
  {
    ghost var v := value.Model();
    var cap := 1000;
    ghost var n: nat := 0;
    while cap >= 80
      invariant n <= |CAPS| && cap == if n < |CAPS| then CAPS[n] else 62
      invariant NoneFits(TooLarge(size, maxChars), v, n)
    {
      bounded, fits := TryCap(size, value, maxChars, cap);
      if fits {
        assert FitsAt(TooLarge(size, maxChars), v, bounded.Model(), n);
        return;
      }
      cap := cap / 2;
      n := n + 1;
    }
    bounded, fits := TryCap(size, value, maxChars, 80);
    fits := false;
  }

  /** `size` is the length of the printed value. The value passed in is not touched: what is returned is either
      the value itself, because it fits, or shares nothing with it. */
  method FitContextBudget(size: Value -> nat, value: Node, maxChars: nat) returns (bounded: Node)
    requires value.Valid()
    ensures bounded.Valid() && (bounded == value || (bounded.Tree() && fresh(bounded.Repr)))
    ensures value.Valid() && value.Model() == old(value.Model())
    ensures size(bounded.Model()) <= maxChars || Items(bounded.Model()) == 0
    ensures Shrunk(value.Model(), bounded.Model())
    ensures Fitted(TooLarge(size, maxChars), value.Model(), bounded.Model())
  {
    ShrunkSame(value.Model());
    var now := Snapshot(value);
    if size(now) <= maxChars { return value; }
    var fits: bool;
    bounded, fits := CutUntilFit(size, value, maxChars);
    if !fits { ghost var n := DropUntilFit(size, bounded, maxChars, value.Model()); }
  }

  /** One more drop, while there is something to drop. */
  method DropOnce(bounded: Node) returns (dropped: bool, now: Value)
    requires bounded.Tree()
    modifies bounded.Repr
    ensures bounded.Tree() && bounded.Repr == old(bounded.Repr) && now == bounded.Model()
    ensures dropped <==> Items(old(bounded.Model())) > 0
    ensures if dropped then LastDropped(old(bounded.Model()), now) else now == old(bounded.Model())
  {
    dropped := DropInPlace(bounded);
    now := Snapshot(bounded);
  }

  lemma DropProgress(tooLarge: Value -> bool, value: Value, start: Value, n: nat, was: Value, now: Value)
    requires Shrunk(value, was) && DroppedTimes(tooLarge, start, n, was) && tooLarge(was) && LastDropped(was, now)
    ensures Shrunk(value, now) && DroppedTimes(tooLarge, start, n + 1, now) && Items(now) < Items(was)
  {
    DropsOneItem(was, now);
    DropShrinks(value, was, now);
    DropOnceMore(tooLarge, start, n, was, now);
  }

  method DropUntilFit(size: Value -> nat, bounded: Node, maxChars: nat, ghost value: Value) returns (ghost n: nat)
    requires bounded.Tree() && Shrunk(value, bounded.Model())
    modifies bounded.Repr
    ensures bounded.Tree() && bounded.Repr == old(bounded.Repr)
    ensures size(bounded.Model()) <= maxChars || Items(bounded.Model()) == 0
    ensures Shrunk(value, bounded.Model())
    ensures DroppedTimes(TooLarge(size, maxChars), old(bounded.Model()), n, bounded.Model())
  {
    ghost var start := bounded.Model();
    n := 0;
    var now := Snapshot(bounded);
    while size(now) > maxChars
      invariant bounded.Tree() && bounded.Repr == old(bounded.Repr) && now == bounded.Model()
      invariant Shrunk(value, now) && DroppedTimes(TooLarge(size, maxChars), start, n, now)
      decreases Items(now)
    {
      ghost var was := now;
      var dropped;
      dropped, now := DropOnce(bounded);
      if !dropped { break; }
      DropProgress(TooLarge(size, maxChars), value, start, n, was, now);
      n := n + 1;
    }
  }
}
