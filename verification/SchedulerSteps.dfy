/** The calls a scheduler serves between its initialization and its closing return, as steps on values. */
module SchedulerSteps {
  import opened Basics
  import opened TreeIndices
  import opened InactiveNodes
  import opened Sessions

  /** Both sides of a scheduler that is not suspended. */
  datatype Sides = Sides(left: Side, right: Side)

  datatype Call =
    | Balance(epoch: Int32, volume: int, hasLeftChild: bool, hasRightChild: bool)
    | Suspend(epoch: Int32)
    | Reject(epoch: Int32, childIndex: nat, lost: bool, hasChild: bool)
    | Join(source: int, epoch: Int32, childIndex: nat)
    | Return(nodes: seq<Node>, source: int)
    | Freed(rank: int, epoch: Int32, nodeIndex: int)

  /** The two children of a node. */
  datatype Which = Left | Right

  function At(v: Sides, w: Which): Side { if w == Left then v.left else v.right }

  function Other(w: Which): Which { if w == Left then Right else Left }

  function IndexOf(index: nat, w: Which): nat { if w == Left then LeftChild(index) else RightChild(index) }

  /** The side that a child's index belongs to. */
  function ByIndex(index: nat, childIndex: nat): Option<Which> {
    if childIndex == LeftChild(index) then Some(Left)
    else if childIndex == RightChild(index) then Some(Right)
    else None
  }

  /** The side whose child has this rank; the left one first. */
  function ByRank(v: Sides, rank: int): Option<Which> {
    if v.left.childRank == rank then Some(Left) else if v.right.childRank == rank then Some(Right) else None
  }

  ghost predicate OnlySide(v: Sides, v': Sides, w: Which) { At(v', Other(w)) == At(v, Other(w)) }

  /** What a call does to both sides, and what it hands to a joining child. */
  ghost predicate Steps(index: nat, v: Sides, c: Call, v': Sides, given: Option<seq<Node>>) {
    match c
    case Balance(_, _, _, _) => given == None && Refreshes(v.left, v'.left) && Refreshes(v.right, v'.right)
    case Suspend(_) => given == None && v' == v
    case Reject(epoch, childIndex, lost, _) =>
      && given == None
      && (match ByIndex(index, childIndex)
          case None => v' == v
          case Some(w) => OnlySide(v, v', w) && Asks(At(v, w), At(v', w), childIndex, epoch, lost))
    case Join(source, epoch, childIndex) =>
      (match ByIndex(index, childIndex)
       case None => v' == v && given == None
       case Some(w) =>
         && OnlySide(v, v', w) && given.Some?
         && Joins(At(v, w), At(v', w), source, childIndex, epoch, given.value))
    case Return(nodes, source) =>
      && given == None
      && (match ByRank(v, source)
          case None => v' == v
          case Some(w) => OnlySide(v, v', w) && Takes(At(v, w), At(v', w), nodes))
    case Freed(rank, epoch, nodeIndex) =>
      given == None && Frees(v.left, v'.left, rank, epoch, nodeIndex)
        && Frees(v.right, v'.right, rank, epoch, nodeIndex)
  }
}
