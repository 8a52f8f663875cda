/** Cartesian poses of the arm's tool centre point. */
module Poses {

  /** Position in millimetres and orientation (roll, pitch, yaw) in degrees,
      in the order the arm reports and accepts them. */
  datatype Pose = Pose(x: real, y: real, z: real, roll: real, pitch: real, yaw: real)

  /** The home position the controller falls back to when none is given. */
  const Home: Pose := Pose(-159.3, -193.5, 329.4, 180.0, 0.0, -90.0)
}
