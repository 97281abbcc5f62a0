/**
  `decide_action`: the motion decision taken from a detection record. Only
  the record's `found` and `zone` entries are consulted.
 */
module Decision {
  import opened Wrappers
  import opened Detection

  const MoveForward: string := "MOVE_FORWARD"
  const TurnLeft: string := "TURN_LEFT"
  const TurnRight: string := "TURN_RIGHT"
  const Stop: string := "STOP"

  /** The four documented action strings. */
  const ActionNames: set<string> := {MoveForward, TurnLeft, TurnRight, Stop}

  /** Which way to move for each recognised zone. */
  const ActionForZone: map<string, string> := map[Center := MoveForward, Left := TurnLeft, Right := TurnRight]

  /**
    Stop unless a person was found; otherwise move towards the zone it is in,
    and stop for a missing or unrecognised zone.
   */
  function DecideAction(d: DetectionResult): (a: string)
    ensures a in ActionNames
    ensures !d.found ==> a == Stop
    ensures a == MoveForward <==> d.found && d.zone == Some(Center)
    ensures a == TurnLeft <==> d.found && d.zone == Some(Left)
    ensures a == TurnRight <==> d.found && d.zone == Some(Right)
    ensures a == Stop <==> !d.found || d.zone.None? || d.zone.value !in ZoneNames
  {
    if !d.found then Stop
    else
      var zone := d.zone;
      if zone == Some(Center) then MoveForward
      else if zone == Some(Left) then TurnLeft
      else if zone == Some(Right) then TurnRight
      else Stop
  }

  /** The decision agrees with the zone-to-action table, and stops off the table. */
  lemma DecideActionByTable(d: DetectionResult)
    ensures DecideAction(d) ==
      if d.found && d.zone.Some? && d.zone.value in ActionForZone then ActionForZone[d.zone.value] else Stop
  {
  }

  /** A moving action names the zone it came from: no two zones share an action. */
  lemma MovingActionDeterminesZone(d: DetectionResult)
    requires DecideAction(d) != Stop
    ensures d.found && d.zone.Some? && d.zone.value in ActionForZone
    ensures ActionForZone[d.zone.value] == DecideAction(d)
    ensures forall z | z in ActionForZone && ActionForZone[z] == DecideAction(d) :: z == d.zone.value
  {
  }

  /** Two records that agree on `found` and `zone` get the same action, whatever their boxes. */
  lemma DecideActionIgnoresBox(d1: DetectionResult, d2: DetectionResult)
    requires d1.found == d2.found && d1.zone == d2.zone
    ensures DecideAction(d1) == DecideAction(d2)
  {
  }

  /** On a well-formed `detect` result the robot stops exactly when no person was found. */
  lemma StopIffNotFound(d: DetectionResult)
    requires WellFormed(d)
    ensures DecideAction(d) == Stop <==> !d.found
  {
  }

  /**
    From box to motion: a found person whose box centre is left of the left
    boundary makes the robot turn left, one right of (or on) the right
    boundary makes it turn right, and one in between makes it move forward.
   */
  lemma SteersTowardsPerson(b: Box, w: nat, zoneInfo: Option<Zones.ZoneInfo>)
    ensures var (leftEnd, rightStart) := Boundaries(w, zoneInfo);
      var a := DecideAction(DetectionResult(true, Some(ZoneOf(b, w, zoneInfo)), Some(b)));
      var cx := CenterX(b);
      && (a == TurnLeft <==> cx < leftEnd)
      && (a == MoveForward <==> leftEnd <= cx < rightStart)
      && (a == TurnRight <==> leftEnd <= cx && rightStart <= cx)
      && a != Stop
  {
  }
}
