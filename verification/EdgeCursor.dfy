/** The walk over a node's children: true children, then false children, then the others. */
module EdgeCursor {
  import opened ControlDependence

  /** Where the walk stands: the set it walks and the position in it. Each child set is given in the
      order in which std::set enumerates it. */
  class Cursor {
    const trueChildren: seq<Node>
    const falseChildren: seq<Node>
    const otherChildren: seq<Node>
    var stage: EdgeType
    var it: nat

    ghost predicate Valid()
      reads this
    {
      it <= |Current()| && (stage != Other ==> it < |Current()|)
    }

    function Current(): seq<Node>
      reads this
    {
      match stage
      case True => trueChildren
      case False => falseChildren
      case Other => otherChildren
    }

    /** All children with the set each comes from, in the order of delivery. */
    ghost function All(): seq<(EdgeType, Node)> {
      Tagged(True, trueChildren) + Tagged(False, falseChildren) + Tagged(Other, otherChildren)
    }

    /** How many of them are behind the cursor. */
    ghost function Position(): nat
      reads this
    {
      match stage
      case True => it
      case False => |trueChildren| + it
      case Other => |trueChildren| + |falseChildren| + it
    }

    predicate AtEnd()
      reads this
    {
      stage == Other && it == |otherChildren|
    }

    /** Moves to the next set for as long as the current one is used up. */
    method SkipEmpty()
      requires it <= |Current()|
      modifies this
      ensures Valid() && Position() == old(Position())
    {
      while stage != Other && it == |Current()|
        invariant it <= |Current()| && Position() == old(Position())
        decreases match stage case True => 2 case False => 1 case Other => 0
      {
        if stage == True {
          stage, it := False, 0;
        } else {
          stage, it := Other, 0;
        }
      }
    }

    constructor Begin(trueChildren: seq<Node>, falseChildren: seq<Node>, otherChildren: seq<Node>)
      ensures this.trueChildren == trueChildren && this.falseChildren == falseChildren
      ensures this.otherChildren == otherChildren
      ensures Valid() && Position() == 0
    {
      this.trueChildren, this.falseChildren, this.otherChildren := trueChildren, falseChildren, otherChildren;
      stage, it := True, 0;
      new;
      SkipEmpty();
    }

    /** operator++: passes one child; at the end it stays put. */
    method Advance()
      requires Valid()
      modifies this
      ensures Valid() && Position() == if old(AtEnd()) then old(Position()) else old(Position()) + 1
    {
      if it != |Current()| { it := it + 1; }
      SkipEmpty();
    }

    /** The child under the cursor is the next one of the list, and the end is the end of the list. */
    lemma Delivers()
      requires Valid()
      ensures AtEnd() <==> Position() == |All()|
      ensures !AtEnd() ==> it < |Current()| && All()[Position()] == (stage, Current()[it])
    {
    }

    /** The search behind the assertion of `addParent`: std::find from begin to end. */
    method Find(child: Node) returns (found: bool)
      requires Valid() && Position() == 0
      modifies this
      ensures found <==> child in trueChildren || child in falseChildren || child in otherChildren
    {
      while !AtEnd()
        invariant Valid() && Position() <= |All()|
        invariant forall j :: 0 <= j < Position() ==> All()[j].1 != child
        decreases |All()| - Position()
      {
        Delivers();
        if Current()[it] == child { return true; }
        Advance();
      }
      Delivers();
      NotDelivered(child);
      return false;
    }

    lemma NotDelivered(child: Node)
      requires forall j :: 0 <= j < |All()| ==> All()[j].1 != child
      ensures child !in trueChildren && child !in falseChildren && child !in otherChildren
    {
      var n, m := |trueChildren|, |falseChildren|;
      forall k | 0 <= k < n ensures trueChildren[k] != child { assert All()[k].1 == trueChildren[k]; }
      forall k | 0 <= k < m ensures falseChildren[k] != child { assert All()[n + k].1 == falseChildren[k]; }
      forall k | 0 <= k < |otherChildren| ensures otherChildren[k] != child {
        assert All()[n + m + k].1 == otherChildren[k];
      }
    }
  }

  ghost function Tagged(t: EdgeType, s: seq<Node>): (r: seq<(EdgeType, Node)>)
    ensures |r| == |s| && forall i :: 0 <= i < |s| ==> r[i] == (t, s[i])
  {
    seq(|s|, i requires 0 <= i < |s| => (t, s[i]))
  }
}
