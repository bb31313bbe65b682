/** Destructible constructs placed on full ground plates (`constrman.py`):
    life arithmetic, the inclusive hit box, one consumed shot per construct
    per frame, and row-based scrolling with eviction. Images are their
    resource indexes. */
module Constructs {
  import opened Util
  import opened Anim
  import opened Shots
  import Geometry
  import ListScan

  const TY_OUT := 11
  const TX_OUT := 8
  const TILE := 64
  const HIT_DAMAGE := 25

  /** An `ANIM_DEF` entry: frame list and ticks per frame. */
  datatype AnimDef = AnimDef(frames: seq<int>, ticks: nat)

  const ANIM_DEF: seq<AnimDef> := [
    AnimDef(Range(0, 6), 3),    // shot hit
    AnimDef(Range(6, 14), 3),   // explosion 1
    AnimDef(Range(14, 22), 3),  // explosion 2
    AnimDef(Range(22, 30), 3)   // explosion 3
  ]

  /** A `CONSTR_DEF` entry: intact image, destroyed image, explosion
      animation and initial life. */
  datatype ConstrDef = ConstrDef(img0: int, img1: int, exp: int, life: int)

  const CONSTR_DEF: seq<ConstrDef> := [
    ConstrDef(30, 31, 3, 100),
    ConstrDef(32, 33, 3, 100),
    ConstrDef(34, 35, 1, 100),
    ConstrDef(36, 37, 2, 10),
    ConstrDef(38, 39, 2, 50)
  ]

  datatype Constr = Constr(
    row: int, col: int,
    img0: int, img1: int, expIdx: int,
    yPos: int, xPos: int,
    life: int,
    expAnim: Option<AnimOnce>, hitAnim: Option<AnimOnce>,
    hitX: int)
  {
    /** The explosion index names an animation, and every animation still
        held is running (finished ones are dropped on the tick that ends them). */
    predicate Valid() {
      && 0 <= expIdx < |ANIM_DEF|
      && (expAnim.Some? ==> expAnim.value.Valid() && !expAnim.value.finish)
      && (hitAnim.Some? ==> hitAnim.value.Valid() && !hitAnim.value.finish)
    }
  }

  /** Every archetype names an explosion animation and has positive life. */
  lemma ConstrDefsWellFormed()
    ensures forall i :: 0 <= i < |CONSTR_DEF| ==> 1 <= CONSTR_DEF[i].exp < |ANIM_DEF| && CONSTR_DEF[i].life > 0
    ensures forall i :: 0 <= i < |ANIM_DEF| ==> |ANIM_DEF[i].frames| > 0
  {
  }

  function NewAnimFrom(d: AnimDef): (a: AnimOnce)
    requires |d.frames| > 0
    ensures a.Valid() && !a.finish
  {
    NewOnce(d.frames, d.ticks)
  }

  /** `Constr.__init__`. */
  function NewConstr(row: int, col: int, d: ConstrDef): (c: Constr)
    requires 0 <= d.exp < |ANIM_DEF|
    ensures c.Valid() && c.row == row && c.col == col && c.life == d.life
    ensures c.yPos == row * TILE && c.xPos == col * TILE
    ensures c.expAnim == None && c.hitAnim == None
  {
    Constr(row, col, d.img0, d.img1, d.exp, row * TILE, col * TILE, d.life, None, None, 0)
  }

  /** Ticks a held one-shot animation and drops it once it has finished. */
  function TickHeld(a: Option<AnimOnce>): (r: Option<AnimOnce>)
    requires a.Some? ==> a.value.Valid() && !a.value.finish
    ensures r.Some? ==> r.value.Valid() && !r.value.finish
    ensures a.None? ==> r.None?
    ensures a.Some? && r.Some? ==> r.value == OnceTick(a.value)
    ensures a.Some? && r.None? ==> OnceTick(a.value).finish
  {
    match a
    case None => None
    case Some(anim) =>
      var t := OnceTick(anim);
      if t.finish then None else Some(t)
  }

  /** `Constr.tick`: the screen Y follows the row and the scroll offset. */
  function ConstrTick(c: Constr, offsetY: int): (r: Constr)
    requires c.Valid()
    ensures r.Valid() && r.yPos == c.row * TILE + offsetY
    ensures r == c.(yPos := r.yPos, expAnim := r.expAnim, hitAnim := r.hitAnim)
    ensures r.expAnim == TickHeld(c.expAnim) && r.hitAnim == TickHeld(c.hitAnim)
  {
    c.(yPos := c.row * TILE + offsetY, expAnim := TickHeld(c.expAnim), hitAnim := TickHeld(c.hitAnim))
  }

  /** The hit box: the tile above the construct's Y, inclusive on all sides. */
  predicate InHitBox(c: Constr, s: Shot)
  {
    s.y >= c.yPos - TILE && s.y <= c.yPos && s.x >= c.xPos && s.x <= c.xPos + TILE
  }

  datatype Hit = Hit(constr: Constr, hit: bool)

  /** `Constr.check_hit`: a standing construct inside whose box the shot lies
      loses 25 life, starts a hit animation at the shot's X, and starts its
      explosion if that brings life to zero or below. */
  function CheckHit(c: Constr, s: Shot): (r: Hit)
    requires c.Valid()
    ensures r.constr.Valid()
    ensures r.hit <==> c.life > 0 &&
                       Geometry.InsideRect(Geometry.Point(c.xPos, c.yPos - TILE),
                                           Geometry.Point(c.xPos + TILE, c.yPos),
                                           Geometry.Point(s.x, s.y))
    ensures !r.hit ==> r.constr == c
    ensures r.hit ==> && r.constr == c.(life := c.life - HIT_DAMAGE, hitX := s.x,
                                         hitAnim := Some(NewAnimFrom(ANIM_DEF[0])),
                                         expAnim := r.constr.expAnim)
                      && (r.constr.expAnim != c.expAnim ==> r.constr.life <= 0)
                      && (r.constr.life <= 0 ==> r.constr.expAnim == Some(NewAnimFrom(ANIM_DEF[c.expIdx])))
  {
    if c.life > 0 && InHitBox(c, s) then
      var life := c.life - HIT_DAMAGE;
      var c1 := c.(life := life, hitAnim := Some(NewAnimFrom(ANIM_DEF[0])), hitX := s.x);
      if life <= 0 then Hit(c1.(expAnim := Some(NewAnimFrom(ANIM_DEF[c.expIdx]))), true)
      else Hit(c1, true)
    else Hit(c, false)
  }

  /** A destroyed construct is never hit again. */
  lemma DestroyedIsInert(c: Constr, s: Shot)
    requires c.Valid() && c.life <= 0
    ensures CheckHit(c, s) == Hit(c, false)
  {
  }

  /** Offers every shot of the list to one construct in turn (as repeated
      frames would) and counts the hits. */
  function HitAll(c: Constr, shots: seq<Shot>): (r: (Constr, nat))
    requires c.Valid()
    ensures r.0.Valid()
    decreases |shots|
  {
    if |shots| == 0 then (c, 0)
    else
      var h := CheckHit(c, shots[0]);
      var rest := HitAll(h.constr, shots[1..]);
      (rest.0, rest.1 + (if h.hit then 1 else 0))
  }

  /** At most ceil(L / 25) hits land on a construct of life L, and each
      takes exactly 25. */
  lemma {:induction false} HitBudget(c: Constr, shots: seq<Shot>)
    requires c.Valid()
    ensures HitAll(c, shots).0.life == c.life - HIT_DAMAGE * HitAll(c, shots).1
    ensures HitAll(c, shots).1 <= if c.life <= 0 then 0 else (c.life + HIT_DAMAGE - 1) / HIT_DAMAGE
    decreases |shots|
  {
    if |shots| > 0 {
      var h := CheckHit(c, shots[0]);
      HitBudget(h.constr, shots[1..]);
      if h.hit {
        var l := c.life;
        assert l > 0;
        if l - HIT_DAMAGE > 0 {
          DivModUnique(l + HIT_DAMAGE - 1, HIT_DAMAGE, (l - 1) / HIT_DAMAGE + 1, (l - 1) % HIT_DAMAGE);
          DivModUnique(l - 1, HIT_DAMAGE, (l - 1) / HIT_DAMAGE, (l - 1) % HIT_DAMAGE);
        }
      }
    }
  }

  function ConstrTickRun(c: Constr, offsetY: int, n: nat): (r: Constr)
    requires c.Valid()
    ensures r.Valid()
  {
    if n == 0 then c else ConstrTick(ConstrTickRun(c, offsetY, n - 1), offsetY)
  }

  /** A fresh hit animation of F frames of T + 1 ticks is held for
      F * (T + 1) - 1 ticks, following its own clock, and dropped on the
      next one. */
  lemma {:induction false} HeldHitLifetime(c: Constr, offsetY: int, frames: seq<int>, ticks: nat, n: nat)
    requires c.Valid() && |frames| > 0 && c.hitAnim == Some(NewOnce(frames, ticks))
    ensures ConstrTickRun(c, offsetY, n).hitAnim.Some? <==> n < |frames| * (ticks + 1)
    ensures n < |frames| * (ticks + 1) ==> ConstrTickRun(c, offsetY, n).hitAnim == Some(OnceRun(NewOnce(frames, ticks), n))
  {
    var total := |frames| * (ticks + 1);
    if n > 0 {
      HeldHitLifetime(c, offsetY, frames, ticks, n - 1);
      var prev := ConstrTickRun(c, offsetY, n - 1);
      assert ConstrTickRun(c, offsetY, n).hitAnim == TickHeld(prev.hitAnim);
      if n - 1 < total {
        var a := OnceRun(NewOnce(frames, ticks), n - 1);
        assert OnceRun(NewOnce(frames, ticks), n) == OnceTick(a);
        OnceLifetime(frames, ticks, n);
        OnceLifetime(frames, ticks, n - 1);
      }
    }
  }

  /** The shot-hit animation (6 frames of 4 ticks) is held for 23 ticks and
      dropped on the 24th. */
  lemma HitAnimLifetime(c: Constr, offsetY: int, n: nat)
    requires c.Valid() && c.hitAnim == Some(NewAnimFrom(ANIM_DEF[0]))
    ensures ConstrTickRun(c, offsetY, n).hitAnim.Some? <==> n < 24
    ensures n < 24 ==> ConstrTickRun(c, offsetY, n).hitAnim == Some(OnceRun(NewAnimFrom(ANIM_DEF[0]), n))
  {
    var d := ANIM_DEF[0];
    assert |d.frames| == 6 && d.ticks == 3;
    HeldHitLifetime(c, offsetY, d.frames, d.ticks, n);
  }

  /** A shot that hits a construct starts its hit animation afresh, so the
      hit is shown for exactly 24 construct ticks after it. */
  lemma HitShownFor24Ticks(c: Constr, s: Shot, offsetY: int, n: nat)
    requires c.Valid() && CheckHit(c, s).hit
    ensures ConstrTickRun(CheckHit(c, s).constr, offsetY, n).hitAnim.Some? <==> n < 24
  {
    HitAnimLifetime(CheckHit(c, s).constr, offsetY, n);
  }

  // -----------------------------------------------------------------------
  // Construct manager (`ConstrManager`)

  predicate AllValid(cs: seq<Constr>) { forall i :: 0 <= i < |cs| ==> cs[i].Valid() }

  /** `ConstrManager.add`: appends one construct of a randomly drawn
      archetype at (row, col). */
  function Add(cs: seq<Constr>, row: int, col: int, kind: nat): (r: seq<Constr>)
    requires AllValid(cs)
    ensures AllValid(r) && |r| == |cs| + 1 && r[..|cs|] == cs
    ensures r[|cs|].row == row && r[|cs|].col == col
    ensures r[|cs|].yPos == row * TILE && r[|cs|].xPos == col * TILE
    ensures r[|cs|].life in {100, 10, 50}
    ensures r[|cs|].expAnim == None && r[|cs|].hitAnim == None
    ensures exists k :: 0 <= k < |CONSTR_DEF| && r[|cs|] == NewConstr(row, col, CONSTR_DEF[k])
  {
    var d := CONSTR_DEF[RandInt(kind, 0, |CONSTR_DEF| - 1)];
    cs + [NewConstr(row, col, d)]
  }

  /** `ConstrManager.tick`. */
  function Tick(cs: seq<Constr>, offsetY: int): (r: seq<Constr>)
    requires AllValid(cs)
    ensures AllValid(r) && |r| == |cs|
    ensures forall i :: 0 <= i < |cs| ==> r[i] == ConstrTick(cs[i], offsetY)
  {
    seq(|cs|, i requires 0 <= i < |cs| => ConstrTick(cs[i], offsetY))
  }

  function Lower(c: Constr): Constr { c.(row := c.row + 1) }

  predicate OnScreen(c: Constr) { c.row < TY_OUT }

  /** `ConstrManager.scroll`: every row moves down one (the screen Y is not
      touched: the source writes an unused attribute), then constructs past
      the last row are deleted inside `enumerate`, so one right after a
      deleted one survives this scroll. */
  function Scroll(cs: seq<Constr>): (r: seq<Constr>)
    requires AllValid(cs)
    ensures AllValid(r) && |r| <= |cs|
    ensures r == ListScan.Reference(seq(|cs|, i requires 0 <= i < |cs| => Lower(cs[i])), false, OnScreen, c => c)
  {
    var lowered := seq(|cs|, i requires 0 <= i < |cs| => Lower(cs[i]));
    ListScan.ReferenceLength(lowered, false, OnScreen, c => c);
    ScrollKeepsValid(lowered, false);
    ListScan.Scan(lowered, OnScreen, c => c)
  }

  lemma {:induction false} ScrollKeepsValid(cs: seq<Constr>, skip: bool)
    requires AllValid(cs)
    ensures AllValid(ListScan.Reference(cs, skip, OnScreen, c => c))
  {
    if |cs| > 0 {
      ScrollKeepsValid(cs[1..], true);
      ScrollKeepsValid(cs[1..], false);
    }
  }

  /** Two constructs that both leave the screen on the same scroll: the
      first is deleted and the second survives with a row past the end. */
  lemma ScrollSkipsAfterDeletion(c: Constr, d: Constr)
    requires c.Valid() && d.Valid() && c.row == TY_OUT - 1 && d.row == TY_OUT - 1
    ensures Scroll([c, d]) == [Lower(d)] && Lower(d).row == TY_OUT
  {
    var lowered := [Lower(c), Lower(d)];
    assert seq(2, i requires 0 <= i < 2 => Lower([c, d][i])) == lowered;
    ListScan.SuccessorOfDeletedSurvives(lowered, OnScreen, c => c);
    assert lowered[1..][1..] == [];
  }

  /** A construct that is visited and still on screen stays, one row lower,
      with its screen Y unchanged. */
  lemma ScrollLowersHead(cs: seq<Constr>)
    requires AllValid(cs) && |cs| > 0 && cs[0].row + 1 < TY_OUT
    ensures |Scroll(cs)| > 0 && Scroll(cs)[0] == cs[0].(row := cs[0].row + 1)
    ensures Scroll(cs)[0].yPos == cs[0].yPos
  {
  }

  /** Scans the shot list for the first shot that hits `c`. */
  datatype Consumed = Consumed(constr: Constr, shots: seq<Shot>, hit: bool, at: nat)

  function FirstHit(c: Constr, shots: seq<Shot>, i: nat): (r: Consumed)
    requires c.Valid() && i <= |shots|
    ensures r.constr.Valid() && |r.shots| == |shots| - (if r.hit then 1 else 0)
    ensures !r.hit ==> r.constr == c && r.shots == shots
                       && forall j :: i <= j < |shots| ==> !CheckHit(c, shots[j]).hit
    ensures r.hit ==> i <= r.at < |shots| && FirstHitAt(c, shots, i, r.at, r)
    decreases |shots| - i
  {
    if i == |shots| then Consumed(c, shots, false, i)
    else
      var h := CheckHit(c, shots[i]);
      if h.hit then
        Consumed(h.constr, shots[..i] + shots[i + 1..], true, i)
      else FirstHit(c, shots, i + 1)
  }

  /** Shot `j` is the first from `i` on that hits `c`; it alone is removed. */
  predicate FirstHitAt(c: Constr, shots: seq<Shot>, i: nat, j: nat, r: Consumed)
    requires c.Valid() && i <= j < |shots|
  {
    && CheckHit(c, shots[j]).hit
    && (forall k :: i <= k < j ==> !CheckHit(c, shots[k]).hit)
    && r.constr == CheckHit(c, shots[j]).constr
    && r.shots == shots[..j] + shots[j + 1..]
  }

  datatype Checked = Checked(constrs: seq<Constr>, shots: seq<Shot>, hits: nat)

  /** `ConstrManager.check_shots`: each construct in turn consumes at most
      the first shot that hits it. */
  function CheckShots(cs: seq<Constr>, shots: seq<Shot>): (r: Checked)
    requires AllValid(cs)
    ensures AllValid(r.constrs) && |r.constrs| == |cs|
    ensures r.hits <= |cs| && |r.shots| == |shots| - r.hits
  {
    if |cs| == 0 then Checked(cs, shots, 0)
    else
      var first := FirstHit(cs[0], shots, 0);
      var rest := CheckShots(cs[1..], first.shots);
      Checked([first.constr] + rest.constrs, rest.shots, rest.hits + (if first.hit then 1 else 0))
  }

  /** The summed life of a list of constructs. */
  function TotalLife(cs: seq<Constr>): int
  {
    if |cs| == 0 then 0 else cs[0].life + TotalLife(cs[1..])
  }

  /** `FirstHit` from the head removes at most one shot of the list, and a
      hit costs the construct exactly 25 life. */
  lemma FirstHitRemovesOne(c: Constr, shots: seq<Shot>)
    requires c.Valid()
    ensures var f := FirstHit(c, shots, 0);
            && multiset(f.shots) <= multiset(shots)
            && f.constr.life == c.life - (if f.hit then HIT_DAMAGE else 0)
  {
    var f := FirstHit(c, shots, 0);
    if f.hit {
      var j := f.at;
      assert shots == shots[..j] + [shots[j]] + shots[j + 1..];
    }
  }

  /** Only shots of the original list are removed, one per hit, and each
      hit costs its construct 25 life: the summed life falls by 25 per
      removed shot. */
  lemma {:induction false} CheckShotsConsumes(cs: seq<Constr>, shots: seq<Shot>)
    requires AllValid(cs)
    ensures var r := CheckShots(cs, shots);
            && multiset(r.shots) <= multiset(shots)
            && TotalLife(r.constrs) == TotalLife(cs) - HIT_DAMAGE * r.hits
    decreases |cs|
  {
    if |cs| > 0 {
      var r := CheckShots(cs, shots);
      var first := FirstHit(cs[0], shots, 0);
      var rest := CheckShots(cs[1..], first.shots);
      FirstHitRemovesOne(cs[0], shots);
      CheckShotsConsumes(cs[1..], first.shots);
      assert r.constrs[1..] == rest.constrs;
    }
  }

  /** Every construct is either unchanged or is the outcome of a hit by
      some shot of the original list. */
  lemma {:induction false} CheckShotsOutcome(cs: seq<Constr>, shots: seq<Shot>)
    requires AllValid(cs)
    ensures var r := CheckShots(cs, shots);
            forall i :: 0 <= i < |cs| ==>
              || r.constrs[i] == cs[i]
              || exists s :: s in shots && CheckHit(cs[i], s).hit && r.constrs[i] == CheckHit(cs[i], s).constr
    decreases |cs|
  {
    if |cs| > 0 {
      var r := CheckShots(cs, shots);
      var first := FirstHit(cs[0], shots, 0);
      var rest := CheckShots(cs[1..], first.shots);
      FirstHitRemovesOne(cs[0], shots);
      CheckShotsOutcome(cs[1..], first.shots);
      forall i | 0 <= i < |cs|
        ensures || r.constrs[i] == cs[i]
                || exists s :: s in shots && CheckHit(cs[i], s).hit && r.constrs[i] == CheckHit(cs[i], s).constr
      {
        if i == 0 {
          if first.hit {
            assert shots[first.at] in shots;
          }
        } else {
          assert r.constrs[i] == rest.constrs[i - 1] && cs[i] == cs[1..][i - 1];
          if r.constrs[i] != cs[i] {
            var s :| s in first.shots && CheckHit(cs[i], s).hit && r.constrs[i] == CheckHit(cs[i], s).constr;
            assert s in multiset(first.shots);
          }
        }
      }
    }
  }

  /** A construct that `check_shots` leaves unchanged is missed by every
      shot that survives it. */
  lemma {:induction false} CheckShotsUnhitMissed(cs: seq<Constr>, shots: seq<Shot>)
    requires AllValid(cs)
    ensures var r := CheckShots(cs, shots);
            forall i :: 0 <= i < |cs| && r.constrs[i] == cs[i] ==>
              forall s :: s in r.shots ==> !CheckHit(cs[i], s).hit
    decreases |cs|
  {
    if |cs| > 0 {
      var r := CheckShots(cs, shots);
      var first := FirstHit(cs[0], shots, 0);
      var rest := CheckShots(cs[1..], first.shots);
      CheckShotsConsumes(cs[1..], first.shots);
      CheckShotsUnhitMissed(cs[1..], first.shots);
      forall i, s | 0 <= i < |cs| && r.constrs[i] == cs[i] && s in r.shots
        ensures !CheckHit(cs[i], s).hit
      {
        if i == 0 {
          FirstHitRemovesOne(cs[0], shots);
          assert !first.hit;
          assert s in multiset(rest.shots);
          var k :| 0 <= k < |shots| && shots[k] == s;
        } else {
          assert r.constrs[i] == rest.constrs[i - 1] && cs[i] == cs[1..][i - 1];
        }
      }
    }
  }

  /** The shot list never shrinks by more than the number of constructs. */
  lemma CheckShotsBound(cs: seq<Constr>, shots: seq<Shot>)
    requires AllValid(cs)
    ensures |shots| - |cs| <= |CheckShots(cs, shots).shots| <= |shots|
  {
  }
}
