/** Indices of a complete binary tree: node i has the children 2i+1 and 2i+2. */
module TreeIndices {

  /** The node lies in the subtree of the root, which contains the root itself. */
  ghost predicate InSubtree(root: nat, index: int)
    decreases if index > 0 then index else 0
  {
    index == root || (index > root && InSubtree(root, (index - 1) / 2))
  }

  function LeftChild(index: nat): nat { 2 * index + 1 }

  function RightChild(index: nat): nat { 2 * index + 2 }

  /** First and last index of a layer of the subtree. */
  ghost function LeftMost(root: nat, layer: nat): nat {
    if layer == 0 then root else 2 * LeftMost(root, layer - 1) + 1
  }

  ghost function RightMost(root: nat, layer: nat): nat {
    if layer == 0 then root else 2 * RightMost(root, layer - 1) + 2
  }

  /** The index comes after all layers above this one and not after this layer. */
  ghost predicate AtLayer(root: nat, layer: nat, index: int) {
    index <= RightMost(root, layer) && (layer > 0 ==> index > RightMost(root, layer - 1))
  }

  /** Within its layer an index belongs to the subtree exactly if it does not come before the first one. */
  lemma {:induction false} LayerExact(root: nat, layer: nat, index: int)
    requires AtLayer(root, layer, index)
    ensures InSubtree(root, index) <==> index >= LeftMost(root, layer)
  {
    if layer > 0 {
      RightMostGrows(root, layer - 1);
      LayerExact(root, layer - 1, (index - 1) / 2);
    }
  }

  lemma {:induction false} RightMostGrows(root: nat, layer: nat)
    ensures RightMost(root, layer) >= root + layer
  {
    if layer > 0 { RightMostGrows(root, layer - 1); }
  }

  /** The strict descendants of a node are those of its layers below the first. */
  lemma {:induction false} StrictLayerExact(root: nat, layer: nat, index: int)
    requires layer >= 1 && index <= RightMost(root, layer) && (layer > 1 ==> index > RightMost(root, layer - 1))
    ensures InSubtree(root, index) && index != root <==> index >= LeftMost(root, layer)
  {
    if layer == 1 {
      assert LeftMost(root, 1) == 2 * LeftMost(root, 0) + 1;
      if index > root { LayerExact(root, 1, index); }
    } else {
      RightMostGrows(root, layer - 1);
      LayerExact(root, layer, index);
    }
  }

  /** In each layer the left child's subtree ends where the right child's subtree begins. */
  lemma {:induction false} Siblings(index: nat, layer: nat)
    ensures LeftMost(RightChild(index), layer) == RightMost(LeftChild(index), layer) + 1
  {
    if layer > 0 { Siblings(index, layer - 1); }
  }

  /** A strict descendant lies below exactly one of the two children. */
  lemma {:induction false} OneChild(index: nat, i: int)
    ensures InSubtree(index, i) && i != index <==> InSubtree(LeftChild(index), i) || InSubtree(RightChild(index), i)
    ensures !(InSubtree(LeftChild(index), i) && InSubtree(RightChild(index), i))
    decreases if i > 0 then i else 0
  {
    if i > index { OneChild(index, (i - 1) / 2); }
  }

  lemma {:induction false} SubtreeAbove(root: nat, index: int)
    requires InSubtree(root, index)
    ensures index >= root
  {
  }
}
