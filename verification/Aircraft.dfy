/**
 Aircraft records and the rule by which one report replaces another
 (src/object/Object.cpp, src/object/Aircraft.cpp). The store keeps its records by value, so a
 record is a value here and the in-place updates are functions to the new record.
 */
module Aircrafts {
  import opened TimeStamps

  const OBJ_OUTDATED := 4

  datatype IdType = Random | Icao | FlarmId | Ogn

  datatype AircraftType =
    | Unknown | Glider | TowPlane | HelicopterRotorcraft | Parachute | DropPlane | HangGlider
    | ParaGlider | PoweredAircraft | JetAircraft | Ufo | Balloon | Airship | Uav | StaticObject

  /** The device that a report comes from. */
  datatype TargetType = Flarm | Transponder

  datatype Position = Position(latitude: real, longitude: real, altitude: int)

  datatype Movement = Movement(gndSpeed: real, heading: real, climbRate: real)

  /** What a report says about an aircraft. */
  datatype Info = Info(
    idType: IdType,
    aircraftType: AircraftType,
    targetType: TargetType,
    position: Position,
    movement: Movement,
    timeStamp: TimeStamp,
    fullInfo: bool)

  /** `age` is the number of times processed without update. */
  datatype Aircraft = Aircraft(
    id: string,
    info: Info,
    priority: nat,
    age: nat,
    serialized: string)
  {
    /** Object::assign and Aircraft::assign: everything but the id is taken over. */
    function Assign(update: Aircraft): Aircraft
    {
      Aircraft(id, update.info, update.priority, 0, update.serialized)
    }

    /** Whether this report may replace `stored`. */
    predicate CanUpdate(stored: Aircraft)
    {
      && Newer(info.timeStamp, stored.info.timeStamp)
      && (stored.info.targetType == Transponder || info.targetType == Flarm)
      && (priority >= stored.priority || stored.age >= OBJ_OUTDATED)
    }

    function SetTargetType(t: TargetType): Aircraft
    {
      this.(info := info.(targetType := t))
    }

    /** operator++ */
    function Older(): Aircraft
    {
      this.(age := age + 1)
    }
  }
}
