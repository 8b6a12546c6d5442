/** The frame conversion of the IMU data and the flight dynamics packet built from a sensor snapshot. */
module ImuFrames {
  import opened Quaternions

  function FluBodyToEnuWorldQuatToGazeboBridgeQuat(q: Quaternion): Quaternion {
    Quaternion(q.w, q.x, -q.y, -q.z)
  }

  // Half a turn about the x axis.
  const RX_PI := Quaternion(0.0, 1.0, 0.0, 0.0)

  /** The conversion keeps the norm and undoes itself. */
  lemma QuatConversionIsIsometricInvolution(q: Quaternion)
    ensures var converted := FluBodyToEnuWorldQuatToGazeboBridgeQuat(q);
            && SquaredNorm(converted) == SquaredNorm(q)
            && FluBodyToEnuWorldQuatToGazeboBridgeQuat(converted) == q
  {
  }

  lemma ProductByTimes(p: Quaternion, q: Quaternion)
    ensures Product(p, q)
         == Quaternion(Times(p.w, q.w) - Times(p.x, q.x) - Times(p.y, q.y) - Times(p.z, q.z),
                       Times(p.w, q.x) + Times(p.x, q.w) + Times(p.y, q.z) - Times(p.z, q.y),
                       Times(p.w, q.y) - Times(p.x, q.z) + Times(p.y, q.w) + Times(p.z, q.x),
                       Times(p.w, q.z) + Times(p.x, q.y) - Times(p.y, q.x) + Times(p.z, q.w))
  {
  }

  lemma Signs(a: real, b: real)
    ensures Times(-a, b) == -Times(a, b) && Times(a, -b) == -Times(a, b) && Times(-a, -b) == Times(a, b)
  {
  }

  /** It distributes over the Hamilton product. */
  lemma QuatConversionDistributes(p: Quaternion, q: Quaternion)
    ensures FluBodyToEnuWorldQuatToGazeboBridgeQuat(Product(p, q))
         == Product(FluBodyToEnuWorldQuatToGazeboBridgeQuat(p), FluBodyToEnuWorldQuatToGazeboBridgeQuat(q))
  {
    hide Product, Times;
    ProductByTimes(p, q);
    ProductByTimes(FluBodyToEnuWorldQuatToGazeboBridgeQuat(p), FluBodyToEnuWorldQuatToGazeboBridgeQuat(q));
    Signs(p.w, q.y);
    Signs(p.w, q.z);
    Signs(p.x, q.y);
    Signs(p.x, q.z);
    Signs(p.y, q.w);
    Signs(p.y, q.x);
    Signs(p.y, q.y);
    Signs(p.y, q.z);
    Signs(p.z, q.w);
    Signs(p.z, q.x);
    Signs(p.z, q.y);
    Signs(p.z, q.z);
  }

  /** It is conjugation by half a turn about x, up to the sign that does not change a rotation. */
  lemma QuatConversionIsHalfTurn(q: Quaternion)
    ensures FluBodyToEnuWorldQuatToGazeboBridgeQuat(q) == Scale(-1.0, Product(Product(RX_PI, q), RX_PI))
  {
  }

  /** Turning a converted vector with a converted attitude is converting the turned vector. */
  lemma ConversionCommutesWithRotation(q: Quaternion, v: Vector)
    ensures Rotate(FluBodyToEnuWorldQuatToGazeboBridgeQuat(q), FluToFrd(v))
         == FluToFrd(Rotate(q, v))
  {
    hide Product;
    QuatConversionDistributes(q, Pure(v));
    QuatConversionDistributes(Product(q, Pure(v)), Conjugate(q));
  }

  // ---- The packet ----

  datatype Snapshot = Snapshot(altitude: real, verticalVelocity: real, angularVelocity: Vector,
                               linearAcceleration: Vector, orientation: Quaternion,
                               longitudeDeg: real, latitudeDeg: real, gpsAltitude: real,
                               velocityEast: real, velocityNorth: real, velocityUp: real, hasNavSat: bool)

  datatype FdmConfig = FdmConfig(frameMode: string, altitudeSource: string, pressureMode: string,
                                 seaLevelPressurePa: real)

  datatype FdmPacket = FdmPacket(timestamp: real, angularVelocity: Vector, linearAcceleration: Vector,
                                 orientation: Quaternion, velocity: Vector, position: Vector, pressure: real)

  function ToArray(v: Vector): (a: seq<real>)
    ensures |a| == 3
  {
    [v.x, v.y, v.z]
  }

  // The vector in the first three elements of an array.
  function FromArray(a: seq<real>): Vector
    requires |a| == 3
  {
    Vector(a[0], a[1], a[2])
  }

  /** The barometric formula (a power of a real number) is a parameter.  In the bridge's own frame mode what the
      packet's attitude makes of the packet's vectors is the converted value of what the snapshot's attitude
      makes of the snapshot's vectors, and no information is lost; otherwise the three go out as they came. */
  method Build(config: FdmConfig, pressureFromAltitude: (real, real) -> real, snapshot: Snapshot,
               timestampSeconds: real)
    returns (packet: FdmPacket)
    ensures packet.timestamp == timestampSeconds
    ensures config.frameMode == "gazebo_bridge" ==>
      && Rotate(packet.orientation, packet.linearAcceleration)
         == FluToFrd(Rotate(snapshot.orientation, snapshot.linearAcceleration))
      && Rotate(packet.orientation, packet.angularVelocity)
         == FluToFrd(Rotate(snapshot.orientation, snapshot.angularVelocity))
      && SquaredNorm(packet.orientation) == SquaredNorm(snapshot.orientation)
      && packet.orientation == Scale(-1.0, Product(Product(RX_PI, snapshot.orientation), RX_PI))
      && FluToFrd(packet.linearAcceleration) == snapshot.linearAcceleration
      && FluToFrd(packet.angularVelocity) == snapshot.angularVelocity
    ensures config.frameMode != "gazebo_bridge" ==>
      && packet.orientation == snapshot.orientation
      && packet.linearAcceleration == snapshot.linearAcceleration
      && packet.angularVelocity == snapshot.angularVelocity
    // Without a fix the horizontal position and velocity are zero and the altitude is the altimeter's.
    ensures packet.position.x == (if snapshot.hasNavSat then snapshot.longitudeDeg else 0.0)
    ensures packet.position.y == (if snapshot.hasNavSat then snapshot.latitudeDeg else 0.0)
    ensures packet.velocity.x == (if snapshot.hasNavSat then snapshot.velocityEast else 0.0)
    ensures packet.velocity.y == (if snapshot.hasNavSat then snapshot.velocityNorth else 0.0)
    ensures (packet.position.z, packet.velocity.z)
         == (if config.altitudeSource == "gps" && snapshot.hasNavSat then (snapshot.gpsAltitude, snapshot.velocityUp)
             else (snapshot.altitude, snapshot.verticalVelocity))
    ensures packet.pressure == (if config.pressureMode == "zero" then 0.0
                                else pressureFromAltitude(snapshot.altitude, config.seaLevelPressurePa))
  {
    hide Rotate, Product, SquaredNorm;
    var bridgeFrame := config.frameMode == "gazebo_bridge";
    var angular := ToArray(if bridgeFrame then FluToFrd(snapshot.angularVelocity)
                           else snapshot.angularVelocity);
    var linear := ToArray(if bridgeFrame then FluToFrd(snapshot.linearAcceleration)
                          else snapshot.linearAcceleration);
    var orientation := if bridgeFrame then FluBodyToEnuWorldQuatToGazeboBridgeQuat(snapshot.orientation)
                       else snapshot.orientation;
    var packetAngular, packetLinear: seq<real> := [], [];
    var velocity, position: seq<real> := [], [];
    for i := 0 to 3
      invariant packetAngular == angular[..i] && packetLinear == linear[..i]
      invariant |velocity| == i && |position| == i
      invariant forall k :: 0 <= k < i ==> velocity[k] == 0.0 && position[k] == 0.0
    {
      packetAngular := packetAngular + [angular[i]];
      packetLinear := packetLinear + [linear[i]];
      velocity := velocity + [0.0];
      position := position + [0.0];
    }
    if snapshot.hasNavSat {
      position := position[0 := snapshot.longitudeDeg][1 := snapshot.latitudeDeg];
      velocity := velocity[0 := snapshot.velocityEast][1 := snapshot.velocityNorth];
    }
    var gpsAltitude := config.altitudeSource == "gps" && snapshot.hasNavSat;
    position := position[2 := if gpsAltitude then snapshot.gpsAltitude else snapshot.altitude];
    velocity := velocity[2 := if gpsAltitude then snapshot.velocityUp else snapshot.verticalVelocity];
    var pressure := if config.pressureMode == "zero" then 0.0
                    else pressureFromAltitude(snapshot.altitude, config.seaLevelPressurePa);
    packet := FdmPacket(timestampSeconds, FromArray(packetAngular), FromArray(packetLinear), orientation,
                        FromArray(velocity), FromArray(position), pressure);
    ConversionCommutesWithRotation(snapshot.orientation, snapshot.linearAcceleration);
    ConversionCommutesWithRotation(snapshot.orientation, snapshot.angularVelocity);
    QuatConversionIsIsometricInvolution(snapshot.orientation);
    QuatConversionIsHalfTurn(snapshot.orientation);
  }
}
