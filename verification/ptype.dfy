/** Projectiles (`Shot` in `ship.py`) and their per-frame advance
    (`PType.shot_list_tick` in `ptype.py`). */
module Shots {
  import ListScan

  datatype Shot = Shot(x: int, y: int, speedX: int, speedY: int, damage: int)

  /** The field test of `shot_list_tick`. Its fourth comparison tests the Y
      position against the width, so there is no upper bound on X. */
  predicate InField(s: Shot, width: int, height: int)
  {
    s.y > 0 && s.y < height && s.x > 0 && s.y < width
  }

  function Advance(s: Shot): Shot
  {
    s.(x := s.x + s.speedX, y := s.y + s.speedY)
  }

  /** `shot_list_tick`: walks the list, moving shots in the field and
      removing the others while iterating, so the shot right after a removed
      one is skipped on that tick. */
  function ShotListTick(shots: seq<Shot>, width: int, height: int): (r: seq<Shot>)
    ensures r == ListScan.Reference(shots, false, s => InField(s, width, height), Advance)
    ensures |r| == |shots| - ListScan.Deleted(shots, false, s => InField(s, width, height))
    ensures |r| <= |shots|
  {
    ListScan.Scan(shots, s => InField(s, width, height), Advance)
  }

  /** A shot that is visited and inside the field moves by exactly its speed;
      one that is visited and outside is removed. Shown on the head of the
      list, which is always visited. */
  lemma HeadShotFate(shots: seq<Shot>, width: int, height: int)
    requires |shots| >= 1
    ensures InField(shots[0], width, height) ==>
              |ShotListTick(shots, width, height)| > 0 &&
              ShotListTick(shots, width, height)[0] ==
                Shot(shots[0].x + shots[0].speedX, shots[0].y + shots[0].speedY,
                     shots[0].speedX, shots[0].speedY, shots[0].damage)
    ensures !InField(shots[0], width, height) ==>
              |ShotListTick(shots, width, height)| < |shots|
  {
    var keep := s => InField(s, width, height);
    ListScan.ReferenceLength(shots[1..], true, keep, Advance);
    ListScan.ReferenceLength(shots[1..], false, keep, Advance);
  }

  /** The shot after a removed one is neither moved nor tested. */
  lemma ShotAfterRemovedIsSkipped(shots: seq<Shot>, width: int, height: int)
    requires |shots| >= 2 && !InField(shots[0], width, height)
    ensures |ShotListTick(shots, width, height)| > 0
    ensures ShotListTick(shots, width, height)[0] == shots[1]
  {
    ListScan.SuccessorOfDeletedSurvives(shots, s => InField(s, width, height), Advance);
  }

  /** Far to the right of the screen a shot still moves: X is only bounded
      below. */
  lemma NoUpperBoundOnX()
    ensures ShotListTick([Shot(100000, 10, 0, -4, 4)], 640, 480) == [Shot(100000, 6, 0, -4, 4)]
  {
    assert InField(Shot(100000, 10, 0, -4, 4), 640, 480);
  }
}
