/** The collision monitor's plain data: poses, velocities and actions. */
module CollisionTypes {
  datatype Pose = Pose(x: real, y: real, theta: real)

  datatype Velocity = Velocity(x: real, y: real, tw: real) {
    function SquaredNorm(): real {
      x * x + y * y + tw * tw
    }

    /** The source's operator <. */
    predicate Slower(other: Velocity) {
      SquaredNorm() < other.SquaredNorm()
    }

    /** The source's operator *. */
    function Scaled(k: real): Velocity {
      Velocity(x * k, y * k, tw * k)
    }

    predicate IsZero() {
      x == 0.0 && y == 0.0 && tw == 0.0
    }
  }

  datatype ActionType = DoNothing | Stop | Slowdown | Approach | Limit

  datatype Action = Action(actionType: ActionType, reqVel: Velocity, polygonName: string)
}
