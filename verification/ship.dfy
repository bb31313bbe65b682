/** The player's ship (`ship.py`): movement with acceleration under a bitmask
    control, the two tilt-linked weapons and the shots they add. The orbiting
    sphere's position is computed with cos/sin in the source and is taken here
    as given numbers. */
module Ship {
  import opened Util
  import opened Anim
  import opened Shots

  /** One shot of a weapon: offset from the ship, speed and damage. */
  datatype ShotDef = ShotDef(xOff: int, yOff: int, speedX: int, speedY: int, damage: int)

  /** A `WEAP_DEF_LIST` entry: weapon frames (linked to the ship's tilt
      frames), X offset per tilt frame, and the shots fired. */
  datatype WeapDef = WeapDef(frames: seq<int>, offX: seq<int>, shots: seq<ShotDef>)

  const WEAP_DEF_LIST: seq<WeapDef> := [
    WeapDef([28, 27, 26, 25, 24, 30, 31, 32, 33], [15, 21, 24, 27, 30, 27, 24, 21, 15],
            [ShotDef(32, 32, 0, -5, 3), ShotDef(32, 58, 0, 5, 3)]),
    WeapDef([28, 27, 26, 25, 24, 30, 31, 32, 33], [-15, -21, -24, -27, -30, -27, -24, -21, -15],
            [ShotDef(32, 32, 0, -5, 3), ShotDef(32, 32, -3, -3, 3), ShotDef(32, 32, -2, -4, 3)])
  ]

  const SHIP_TILT_FRAMES: seq<int> := [18, 17, 16, 15, 14, 20, 21, 22, 23]
  const SHIP_TILT_TICKS: nat := 2
  const FIRE_FRAMES: seq<int> := [0, 1, 2, 3, 4, 5, 6, 7, 8]
  const FIRE_TICKS: nat := 3

  /** Movement limits of `Ship.move`. */
  const X_LIMIT := 500
  const Y_LIMIT := 1000
  const MAX_ACC := 5

  /** Every weapon's frame list and offset list are as long as the ship's
      tilt list, so indexing them by the ship's tilt frame stays in range. */
  lemma WeapDefsMatchTilt()
    ensures forall i :: 0 <= i < |WEAP_DEF_LIST| ==>
              |WEAP_DEF_LIST[i].frames| == |SHIP_TILT_FRAMES| && |WEAP_DEF_LIST[i].offX| == |SHIP_TILT_FRAMES|
  {
  }

  // -----------------------------------------------------------------------
  // Weapons (`Weap`, `Weap1`)

  datatype Weap = Weap(anim: AnimTiltLink, offX: seq<int>, shotDef: seq<ShotDef>)

  function NewWeap1(d: WeapDef, tilt: AnimTilt): (w: Weap)
    requires |d.frames| > 0
    ensures w.anim == NewTiltLink(d.frames, tilt) && w.offX == d.offX && w.shotDef == d.shots
  {
    Weap(NewTiltLink(d.frames, tilt), d.offX, d.shots)
  }

  /** `Weap.get_off_x`: the X offset for the weapon's current tilt frame. */
  function GetOffX(w: Weap): (o: int)
    requires 0 <= w.anim.base.frameIdx < |w.offX|
    ensures o in w.offX
  {
    w.offX[w.anim.base.frameIdx]
  }

  function MakeShot(d: ShotDef, x: int, y: int): Shot
  {
    Shot(x + d.xOff, y + d.yOff, d.speedX, d.speedY, d.damage)
  }

  /** `Weap1.shoot`: one shot per shot definition, offset by the weapon's
      tilt-dependent X offset. */
  function Weap1Shoot(w: Weap, shots: seq<Shot>, x: int, y: int): (r: seq<Shot>)
    requires 0 <= w.anim.base.frameIdx < |w.offX|
    ensures |r| == |shots| + |w.shotDef| && r[..|shots|] == shots
    ensures forall j :: 0 <= j < |w.shotDef| ==>
              && r[|shots| + j].x == x + w.offX[w.anim.base.frameIdx] + w.shotDef[j].xOff
              && r[|shots| + j].y == y + w.shotDef[j].yOff
              && r[|shots| + j].speedX == w.shotDef[j].speedX
              && r[|shots| + j].speedY == w.shotDef[j].speedY
              && r[|shots| + j].damage == w.shotDef[j].damage
  {
    var off := GetOffX(w);
    shots + seq(|w.shotDef|, j requires 0 <= j < |w.shotDef| => MakeShot(w.shotDef[j], x + off, y))
  }

  /** A weapon's volley does not depend on the shots already in the list: it
      is appended after them. */
  lemma Weap1ShootAppends(w: Weap, shots: seq<Shot>, x: int, y: int)
    requires 0 <= w.anim.base.frameIdx < |w.offX|
    ensures Weap1Shoot(w, shots, x, y) == shots + Weap1Shoot(w, [], x, y)
  {
  }

  // -----------------------------------------------------------------------
  // Ship

  datatype Ship = Ship(
    x: int, y: int,
    moveAcc: int, oldCtrl: int,
    animFire: AnimBase, animShip: AnimTilt,
    weaponL: Weap, weaponR: Weap,
    weapon: int,
    sphereX: int, sphereY: int)
  {
    predicate Valid() {
      && 1 <= moveAcc <= MAX_ACC
      && animFire.Valid() && animShip.Valid()
      && |animShip.base.frames| == |SHIP_TILT_FRAMES|
      && weaponL.offX == WEAP_DEF_LIST[1].offX && weaponL.shotDef == WEAP_DEF_LIST[1].shots
      && weaponR.offX == WEAP_DEF_LIST[0].offX && weaponR.shotDef == WEAP_DEF_LIST[0].shots
      && |weaponL.anim.base.frames| == |SHIP_TILT_FRAMES| && |weaponR.anim.base.frames| == |SHIP_TILT_FRAMES|
      && 0 <= weaponL.anim.base.frameIdx < |SHIP_TILT_FRAMES|
      && 0 <= weaponR.anim.base.frameIdx < |SHIP_TILT_FRAMES|
    }
  }

  /** `Ship.__init__`. */
  function NewShip(x: int, y: int): (s: Ship)
    ensures s.Valid() && s.x == x && s.y == y && s.moveAcc == 1 && s.oldCtrl == 0 && s.weapon == 0
    ensures s.weaponL.anim.base.frameIdx == s.weaponR.anim.base.frameIdx == s.animShip.base.frameIdx
  {
    var tilt := NewTilt(SHIP_TILT_FRAMES, SHIP_TILT_TICKS);
    Ship(x, y, 1, 0, NewAnim(FIRE_FRAMES, FIRE_TICKS), tilt,
         NewWeap1(WEAP_DEF_LIST[1], tilt), NewWeap1(WEAP_DEF_LIST[0], tilt), 0, 0, 0)
  }

  /** `control & mask != 0` for a single-bit mask. */
  predicate HasBit(control: nat, mask: nat)
    requires mask > 0
  {
    (control / mask) % 2 == 1
  }

  /** `Ship.move`: a changed control restarts the acceleration at 1, a held
      non-zero control speeds it up to 5. Left wins over right and up over
      down; a move happens only while the position is on the near side of its
      limit, and the position is not clamped. */
  function Move(s: Ship, control: nat): (r: Ship)
    requires s.Valid()
    ensures r.Valid() && r.oldCtrl == control
    ensures s.oldCtrl != control ==> r.moveAcc == 1
    ensures s.oldCtrl == control && control != 0 ==> r.moveAcc == if s.moveAcc < MAX_ACC then s.moveAcc + 1 else MAX_ACC
    ensures s.oldCtrl == control == 0 ==> r.moveAcc == s.moveAcc
    ensures r.animShip.tiltDir == if HasBit(control, 1) then -1 else if HasBit(control, 2) then 1 else 0
    ensures r.x == s.x - r.moveAcc <==> HasBit(control, 1) && s.x > 0
    ensures r.x == s.x + r.moveAcc <==> !HasBit(control, 1) && HasBit(control, 2) && s.x < X_LIMIT
    ensures r.x == s.x || r.x == s.x - r.moveAcc || r.x == s.x + r.moveAcc
    ensures r.y == s.y - r.moveAcc <==> HasBit(control, 4) && s.y > 0
    ensures r.y == s.y + r.moveAcc <==> !HasBit(control, 4) && HasBit(control, 8) && s.y < Y_LIMIT
    ensures r.y == s.y || r.y == s.y - r.moveAcc || r.y == s.y + r.moveAcc
    ensures r == s.(moveAcc := r.moveAcc, oldCtrl := control, x := r.x, y := r.y,
                    animShip := s.animShip.(tiltDir := r.animShip.tiltDir))
  {
    var acc :=
      if s.oldCtrl != control then 1
      else if control != 0 && s.moveAcc < MAX_ACC then s.moveAcc + 1
      else s.moveAcc;
    var tilt :=
      if HasBit(control, 1) then -1
      else if HasBit(control, 2) then 1
      else 0;
    var x :=
      if HasBit(control, 1) then (if s.x > 0 then s.x - acc else s.x)
      else if HasBit(control, 2) then (if s.x < X_LIMIT then s.x + acc else s.x)
      else s.x;
    var y :=
      if HasBit(control, 4) then (if s.y > 0 then s.y - acc else s.y)
      else if HasBit(control, 8) then (if s.y < Y_LIMIT then s.y + acc else s.y)
      else s.y;
    s.(moveAcc := acc, oldCtrl := control, animShip := s.animShip.(tiltDir := tilt), x := x, y := y)
  }

  function MoveRun(s: Ship, control: nat, n: nat): (r: Ship)
    requires s.Valid()
    ensures r.Valid()
  {
    if n == 0 then s else Move(MoveRun(s, control, n - 1), control)
  }

  /** Holding a new non-zero control for `n` frames gives acceleration
      `min(n, 5)`. */
  lemma {:induction false} MoveAccRamp(s: Ship, control: nat, n: nat)
    requires s.Valid() && control != 0 && s.oldCtrl != control && n >= 1
    ensures MoveRun(s, control, n).moveAcc == if n < MAX_ACC then n else MAX_ACC
  {
    if n > 1 {
      MoveAccRamp(s, control, n - 1);
    }
  }

  /** `Ship.shoot`: the main shot, the shots of the selected weapons (bit 0
      left, bit 1 right), then the sphere's shot. Each weapon appends its
      volley to the list in place; by `Weap1ShootAppends` that is the same as
      concatenating the volleys fired into an empty list. */
  function Shoot(s: Ship, shots: seq<Shot>): (r: seq<Shot>)
    requires s.Valid() && s.weapon >= 0
    ensures |r| == |shots| + 2 + (if HasBit(s.weapon, 1) then 3 else 0) + (if HasBit(s.weapon, 2) then 2 else 0)
    ensures r[..|shots|] == shots
    ensures r[|shots|] == Shot(s.x + 32, s.y, 0, -4, 4)
    ensures r[|r| - 1] == Shot(s.x + s.sphereX + 16, s.y + s.sphereY + 16, 0, -5, 2)
    ensures r[|shots| + 1..|r| - 1] ==
              (if HasBit(s.weapon, 1) then Weap1Shoot(s.weaponL, [], s.x, s.y) else []) +
              (if HasBit(s.weapon, 2) then Weap1Shoot(s.weaponR, [], s.x, s.y) else [])
  {
    var main := Shot(s.x + 32, s.y, 0, -4, 4);
    var sphere := Shot(s.x + s.sphereX + 16, s.y + s.sphereY + 16, 0, -5, 2);
    var wl := if HasBit(s.weapon, 1) then Weap1Shoot(s.weaponL, [], s.x, s.y) else [];
    var wr := if HasBit(s.weapon, 2) then Weap1Shoot(s.weaponR, [], s.x, s.y) else [];
    var r := shots + ([main] + (wl + wr) + [sphere]);
    assert r[..|shots|] == shots;
    assert r[|shots| + 1..|r| - 1] == wl + wr;
    r
  }

  /** `Ship.anim_tick` without the sphere's trigonometry: the fire and tilt
      animations tick, then both weapons copy the new tilt frame. */
  function AnimTick(s: Ship, sphereX: int, sphereY: int): (r: Ship)
    requires s.Valid()
    ensures r.Valid()
    ensures r.animShip == TiltTick(s.animShip) && r.animFire == CycTick(s.animFire)
    ensures r.weaponL.anim.base.frameIdx == r.animShip.base.frameIdx
    ensures r.weaponR.anim.base.frameIdx == r.animShip.base.frameIdx
  {
    var fire := CycTick(s.animFire);
    var tilt := TiltTick(s.animShip);
    var wr := s.weaponR.(anim := LinkTick(s.weaponR.anim, tilt));
    var wl := s.weaponL.(anim := LinkTick(s.weaponL.anim, tilt));
    s.(animFire := fire, animShip := tilt, weaponR := wr, weaponL := wl, sphereX := sphereX, sphereY := sphereY)
  }

  /** Once linked, each weapon's X offset is its definition's entry for the
      ship's tilt frame, and the two sit symmetrically about the ship: the
      left weapon's offset is the right weapon's negated. */
  lemma WeaponsSymmetric(s: Ship, sphereX: int, sphereY: int)
    requires s.Valid()
    ensures var r := AnimTick(s, sphereX, sphereY);
            && GetOffX(r.weaponL) == WEAP_DEF_LIST[1].offX[r.animShip.base.frameIdx]
            && GetOffX(r.weaponR) == WEAP_DEF_LIST[0].offX[r.animShip.base.frameIdx]
            && GetOffX(r.weaponL) == -GetOffX(r.weaponR) && 15 <= GetOffX(r.weaponR) <= 30
  {
  }
}
