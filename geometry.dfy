/**
 * The clone pattern: a point and a rectangle given by two points. Copying a
 * rectangle copies its points too, so a copy never shares a point with the
 * original and later changes to either side stay on that side.
 */
module Geometry {
  import opened Numerics

  class Dot {
    var XPosition: int32
    var YPosition: int32

    constructor (x: int32, y: int32)
      ensures XPosition == x && YPosition == y
    {
      XPosition := x;
      YPosition := y;
    }

    /** The copy constructor: a new point with the coordinates of `other`. */
    constructor Copy(other: Dot)
      ensures XPosition == other.XPosition && YPosition == other.YPosition
    {
      XPosition := other.XPosition;
      YPosition := other.YPosition;
    }

    /** A newly allocated point equal to this one. */
    method Replicate() returns (d: Dot)
      ensures fresh(d)
      ensures d.XPosition == XPosition && d.YPosition == YPosition
    {
      d := new Dot.Copy(this);
    }
  }

  class Quadrilateral {
    var UpperLeft: Dot
    var LowerRight: Dot

    /** Keeps the two given points themselves (no copy). */
    constructor (upperLeft: Dot, lowerRight: Dot)
      ensures UpperLeft == upperLeft && LowerRight == lowerRight
    {
      UpperLeft := upperLeft;
      LowerRight := lowerRight;
    }

    /** The copy constructor: two new points with the coordinates of `other`'s. */
    constructor Copy(other: Quadrilateral)
      ensures fresh(UpperLeft) && fresh(LowerRight) && UpperLeft != LowerRight
      ensures UpperLeft.XPosition == other.UpperLeft.XPosition
      ensures UpperLeft.YPosition == other.UpperLeft.YPosition
      ensures LowerRight.XPosition == other.LowerRight.XPosition
      ensures LowerRight.YPosition == other.LowerRight.YPosition
    {
      UpperLeft := new Dot.Copy(other.UpperLeft);
      LowerRight := new Dot.Copy(other.LowerRight);
    }

    /** A newly allocated rectangle whose points are new and equal to this one's. */
    method Replicate() returns (q: Quadrilateral)
      ensures fresh(q) && fresh(q.UpperLeft) && fresh(q.LowerRight)
      ensures q.UpperLeft != q.LowerRight
      ensures q.UpperLeft.XPosition == UpperLeft.XPosition
      ensures q.UpperLeft.YPosition == UpperLeft.YPosition
      ensures q.LowerRight.XPosition == LowerRight.XPosition
      ensures q.LowerRight.YPosition == LowerRight.YPosition
    {
      q := new Quadrilateral.Copy(this);
    }
  }

  /**
   * Moving the original's points after replicating leaves the replica's
   * coordinates as they were when it was made.
   */
  method ReplicaIsIndependent(q: Quadrilateral, x: int32, y: int32) returns (copy: Quadrilateral)
    modifies q.UpperLeft, q.LowerRight
    ensures fresh(copy) && fresh(copy.UpperLeft) && fresh(copy.LowerRight)
    ensures q.UpperLeft.XPosition == x && q.LowerRight.YPosition == y
    ensures copy.UpperLeft.XPosition == old(q.UpperLeft.XPosition)
    ensures copy.UpperLeft.YPosition == old(q.UpperLeft.YPosition)
    ensures copy.LowerRight.XPosition == old(q.LowerRight.XPosition)
    ensures copy.LowerRight.YPosition == old(q.LowerRight.YPosition)
  {
    copy := q.Replicate();
    q.UpperLeft.XPosition := x;
    q.LowerRight.YPosition := y;
  }
}
