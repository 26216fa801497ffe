/**
 * The player character's state machine: keyboard input requests a move, a run or a jump,
 * the fixed-rate physics step carries the requests out, a character tipped over by physics
 * falls down and ignores input until it has got up again, and contacts of its foot with the
 * ground keep track of whether it stands on the ground.
 */
module Player {
  import opened Wrappers
  import opened Collision

  datatype FallDownAxis = X | Z

  /** How ground contact is recognized: by the collider's tag or by its layer. */
  datatype TagOrLayer = Tag | Layer

  datatype Vec3 = Vec3(x: real, y: real, z: real)

  function Neg(v: Vec3): Vec3
  {
    Vec3(-v.x, -v.y, -v.z)
  }

  /** The x and z of the direction the character is to face; y is always 0. */
  datatype LookDir = LookDir(x: real, z: real)

  /** The keys as Input reports them in one frame. */
  datatype Keys = Keys(
    runHeld: bool, runReleased: bool,
    up: bool, down: bool, left: bool, right: bool,
    jumpPressed: bool)

  /** The parts of a collider the ground check looks at. */
  datatype Collider = Collider(tag: string, layer: int)

  /** The two handlers the foot's collision checker is given: contact begins or ends. */
  datatype FootHandler = StandOnGround(isEnter: bool)

  // ---------------------------------------------------------------------------------------
  // What one frame of input does, as functions of the state before it

  /** SetLookDir: a vertical key sets z and keeps x, a horizontal key sets x and keeps z. */
  function LookAfter(look: LookDir, x: real, z: real): LookDir
  {
    if x == 0.0 then LookDir(look.x, z)
    else if z == 0.0 then LookDir(x, look.z)
    else look
  }

  /**
   * The facing after the direction keys of one frame, handled up, down, left, right: of two
   * opposite keys the later one wins, and an axis with no key pressed keeps its value.
   */
  function LookAfterKeys(look: LookDir, keys: Keys): (r: LookDir)
    ensures r.x == if keys.right then 1.0 else if keys.left then -1.0 else look.x
    ensures r.z == if keys.down then -1.0 else if keys.up then 1.0 else look.z
  {
    var l1 := if keys.up then LookAfter(look, 0.0, 1.0) else look;
    var l2 := if keys.down then LookAfter(l1, 0.0, -1.0) else l1;
    var l3 := if keys.left then LookAfter(l2, -1.0, 0.0) else l2;
    if keys.right then LookAfter(l3, 1.0, 0.0) else l3
  }

  /** Vector3 * float. */
  function Scale(v: Vec3, s: real): Vec3
  {
    Vec3(v.x * s, v.y * s, v.z * s)
  }

  /**
   * SetDestPos: the destination moved along the horizontal unit direction `dir` by the frame
   * time times the speed, and put at the body's height.
   */
  function Advance(dest: Vec3, dir: Vec3, deltaTime: real, speed: real, bodyY: real): Vec3
  {
    var step := Scale(Scale(dir, deltaTime), speed);
    Vec3(dest.x + step.x, bodyY, dest.z + step.z)
  }

  predicate AnyDirection(keys: Keys)
  {
    keys.up || keys.down || keys.left || keys.right
  }

  /**
   * The destination after the direction keys of one frame, handled up, down, left, right,
   * each moving it along its direction.
   */
  function DestAfterKeys(dest: Vec3, keys: Keys, forward: Vec3, right: Vec3, deltaTime: real, speed: real, bodyY: real): (r: Vec3)
    ensures !AnyDirection(keys) ==> r == dest
    ensures AnyDirection(keys) ==> r.y == bodyY
  {
    var d1 := if keys.up then Advance(dest, forward, deltaTime, speed, bodyY) else dest;
    var d2 := if keys.down then Advance(d1, Neg(forward), deltaTime, speed, bodyY) else d1;
    var d3 := if keys.left then Advance(d2, Neg(right), deltaTime, speed, bodyY) else d2;
    if keys.right then Advance(d3, right, deltaTime, speed, bodyY) else d3
  }

  lemma NegScale(a: real, deltaTime: real, speed: real)
    ensures (-a) * deltaTime * speed == -(a * deltaTime * speed)
  {
  }

  /**
   * Opposite keys held together cancel: with exact arithmetic the destination keeps its
   * horizontal position (in floats, `x + a - a` may differ from `x` by rounding).
   */
  lemma OppositeKeysCancel(dest: Vec3, keys: Keys, forward: Vec3, right: Vec3, deltaTime: real, speed: real, bodyY: real)
    requires (keys.up && keys.down && !keys.left && !keys.right) || (keys.left && keys.right && !keys.up && !keys.down)
    ensures var r := DestAfterKeys(dest, keys, forward, right, deltaTime, speed, bodyY);
            r.x == dest.x && r.z == dest.z
  {
    if keys.up {
      NegScale(forward.x, deltaTime, speed);
      NegScale(forward.z, deltaTime, speed);
    } else {
      NegScale(right.x, deltaTime, speed);
      NegScale(right.z, deltaTime, speed);
    }
  }

  /** The speed after the run key: held selects the run speed, released the walk speed. */
  function SpeedAfterKeys(speed: real, keys: Keys, walkSpeed: real, runSpeed: real): (r: real)
    ensures keys.runReleased ==> r == walkSpeed
    ensures keys.runHeld && !keys.runReleased ==> r == runSpeed
    ensures !keys.runHeld && !keys.runReleased ==> r == speed
  {
    var s := if keys.runHeld then runSpeed else speed;
    if keys.runReleased then walkSpeed else s
  }

  /** The fall-down test on the body's Euler angles: tipped over about x first, then about z. */
  function TippedAxis(eulerX: real, eulerZ: real): (r: Option<FallDownAxis>)
    ensures r == Some(X) <==> 90.0 <= eulerX <= 270.0
    ensures r == Some(Z) <==> !(90.0 <= eulerX <= 270.0) && 90.0 <= eulerZ <= 270.0
  {
    if eulerX >= 90.0 && eulerX <= 270.0 then Some(X)
    else if eulerZ >= 90.0 && eulerZ <= 270.0 then Some(Z)
    else None
  }

  class PlayerController {
    // Settings (serialized fields the code only reads)
    const onControl: bool
    const useMouse: bool
    const walkSpeed: real
    const runSpeed: real
    const jumpPower: real
    const checkGroundByTagOrLayer: TagOrLayer
    const groundTagOrLayer: string

    // Body and rigidbody
    var bodyPosition: Vec3
    var isKinematic: bool
    /** The upward impulses AddForce has applied, in order. */
    var impulses: seq<real>

    var speed: real
    var destPos: Vec3
    var curPos: Vec3
    var lookDir: LookDir

    // States
    var isMoving: bool
    var isJumping: bool
    var isFallDown: bool
    var isWakingUp: bool
    var isOnGround: bool
    var fallDownAxis: FallDownAxis

    /**
     * While getting up the character is still fallen, has no move or jump pending, and its
     * rigidbody is kinematic, so physics cannot tip it over again.
     */
    ghost predicate Valid()
      reads this
    {
      isWakingUp ==> isFallDown && !isMoving && !isJumping && isKinematic
    }

    /** The component as loaded: settings from the scene, every other field at its default. */
    constructor (onControl: bool, useMouse: bool, walkSpeed: real, runSpeed: real, jumpPower: real,
                 checkGroundByTagOrLayer: TagOrLayer, groundTagOrLayer: string, bodyPosition: Vec3)
      ensures Valid()
      ensures this.onControl == onControl && this.useMouse == useMouse
      ensures this.walkSpeed == walkSpeed && this.runSpeed == runSpeed && this.jumpPower == jumpPower
      ensures this.checkGroundByTagOrLayer == checkGroundByTagOrLayer && this.groundTagOrLayer == groundTagOrLayer
      ensures this.bodyPosition == bodyPosition && !isKinematic && impulses == []
      ensures speed == 0.0 && destPos == Vec3(0.0, 0.0, 0.0) && curPos == Vec3(0.0, 0.0, 0.0) && lookDir == LookDir(0.0, 0.0)
      ensures !isMoving && !isJumping && !isFallDown && !isWakingUp && !isOnGround && fallDownAxis == X
    {
      this.onControl := onControl;
      this.useMouse := useMouse;
      this.walkSpeed := walkSpeed;
      this.runSpeed := runSpeed;
      this.jumpPower := jumpPower;
      this.checkGroundByTagOrLayer := checkGroundByTagOrLayer;
      this.groundTagOrLayer := groundTagOrLayer;
      this.bodyPosition := bodyPosition;
      isKinematic := false;
      impulses := [];
      speed := 0.0;
      destPos := Vec3(0.0, 0.0, 0.0);
      curPos := Vec3(0.0, 0.0, 0.0);
      lookDir := LookDir(0.0, 0.0);
      isMoving := false;
      isJumping := false;
      isFallDown := false;
      isWakingUp := false;
      isOnGround := false;
      fallDownAxis := X;
    }

    /**
     * Start: walking speed, the destination is where the body stands, and the foot gets its
     * collision checker.
     */
    method Start() returns (footChecker: OtherCollisionChecker<FootHandler, Collider>)
      modifies this`speed, this`destPos
      ensures speed == walkSpeed && destPos == bodyPosition
      ensures fresh(footChecker) && footChecker.calls == []
      ensures forall e :: e in footChecker.events
      ensures footChecker.events[CollisionEvent.OnCollisionEnter] == [StandOnGround(true)]
      ensures footChecker.events[CollisionEvent.OnCollisionExit] == [StandOnGround(false)]
      ensures forall e :: e != CollisionEvent.OnCollisionEnter && e != CollisionEvent.OnCollisionExit ==>
                footChecker.events[e] == []
    {
      speed := walkSpeed;
      destPos := bodyPosition;
      footChecker := SetFootCollisionChecker();
    }

    // -------------------------------------------------------------------------------------
    // Input

    method SetDestPos(dir: Vec3, deltaTime: real)
      modifies this`destPos
      ensures destPos == Advance(old(destPos), dir, deltaTime, speed, bodyPosition.y)
    {
      var moved := Scale(Scale(dir, deltaTime), speed);
      destPos := Vec3(destPos.x + moved.x, destPos.y + moved.y, destPos.z + moved.z);
      destPos := destPos.(y := bodyPosition.y);
    }

    method SetLookDir(x: real, z: real)
      modifies this`lookDir
      ensures lookDir == LookAfter(old(lookDir), x, z)
    {
      if x == 0.0 {
        lookDir := LookDir(lookDir.x, z);
      } else if z == 0.0 {
        lookDir := LookDir(x, lookDir.z);
      }
    }

    /** A direction key: the destination moves, the facing follows unless the mouse steers, a move is pending. */
    method OnInputDirection(dir: Vec3, lookX: real, lookZ: real, deltaTime: real)
      modifies this`destPos, this`lookDir, this`isMoving
      ensures destPos == Advance(old(destPos), dir, deltaTime, speed, bodyPosition.y)
      ensures lookDir == if useMouse then old(lookDir) else LookAfter(old(lookDir), lookX, lookZ)
      ensures isMoving
    {
      SetDestPos(dir, deltaTime);
      if !useMouse {
        SetLookDir(lookX, lookZ);
      }
      isMoving := true;
    }

    method OnInputUpKey(forward: Vec3, deltaTime: real)
      modifies this`destPos, this`lookDir, this`isMoving
      ensures destPos == Advance(old(destPos), forward, deltaTime, speed, bodyPosition.y)
      ensures lookDir == if useMouse then old(lookDir) else LookAfter(old(lookDir), 0.0, 1.0)
      ensures isMoving
    {
      OnInputDirection(forward, 0.0, 1.0, deltaTime);
    }

    method OnInputDownKey(forward: Vec3, deltaTime: real)
      modifies this`destPos, this`lookDir, this`isMoving
      ensures destPos == Advance(old(destPos), Neg(forward), deltaTime, speed, bodyPosition.y)
      ensures lookDir == if useMouse then old(lookDir) else LookAfter(old(lookDir), 0.0, -1.0)
      ensures isMoving
    {
      OnInputDirection(Neg(forward), 0.0, -1.0, deltaTime);
    }

    method OnInputLeftKey(right: Vec3, deltaTime: real)
      modifies this`destPos, this`lookDir, this`isMoving
      ensures destPos == Advance(old(destPos), Neg(right), deltaTime, speed, bodyPosition.y)
      ensures lookDir == if useMouse then old(lookDir) else LookAfter(old(lookDir), -1.0, 0.0)
      ensures isMoving
    {
      OnInputDirection(Neg(right), -1.0, 0.0, deltaTime);
    }

    method OnInputRightKey(right: Vec3, deltaTime: real)
      modifies this`destPos, this`lookDir, this`isMoving
      ensures destPos == Advance(old(destPos), right, deltaTime, speed, bodyPosition.y)
      ensures lookDir == if useMouse then old(lookDir) else LookAfter(old(lookDir), 1.0, 0.0)
      ensures isMoving
    {
      OnInputDirection(right, 1.0, 0.0, deltaTime);
    }

    method OnInputRunKey()
      modifies this`speed
      ensures speed == runSpeed
    {
      speed := runSpeed;
    }

    method OnReleaseRunKey()
      modifies this`speed
      ensures speed == walkSpeed
    {
      speed := walkSpeed;
    }

    method OnInputJumpKey()
      modifies this`isJumping
      ensures isJumping
    {
      isJumping := true;
    }

    /** The run key's part of InputKey: held selects the run speed, released the walk speed. */
    method InputRunKey(keys: Keys)
      modifies this`speed
      ensures speed == SpeedAfterKeys(old(speed), keys, walkSpeed, runSpeed)
    {
      if keys.runHeld {
        OnInputRunKey();
      }
      if keys.runReleased {
        OnReleaseRunKey();
      }
    }

    /** The direction keys' part of InputKey, handled up, down, left, right. */
    method InputDirectionKeys(keys: Keys, forward: Vec3, right: Vec3, deltaTime: real)
      modifies this`destPos, this`lookDir, this`isMoving
      ensures destPos == DestAfterKeys(old(destPos), keys, forward, right, deltaTime, speed, bodyPosition.y)
      ensures lookDir == if useMouse then old(lookDir) else LookAfterKeys(old(lookDir), keys)
      ensures isMoving == (old(isMoving) || AnyDirection(keys))
    {
      if keys.up {
        OnInputUpKey(forward, deltaTime);
      }
      if keys.down {
        OnInputDownKey(forward, deltaTime);
      }
      if keys.left {
        OnInputLeftKey(right, deltaTime);
      }
      if keys.right {
        OnInputRightKey(right, deltaTime);
      }
    }

    /**
     * InputKey: ignored without control or while fallen. Otherwise the run key sets the speed
     * first, the direction keys then move the destination at that speed, and a jump is
     * requested on the frame its key goes down. `forward` and `right` are the pivot's axes
     * projected on the ground and normalized.
     */
    method InputKey(keys: Keys, forward: Vec3, right: Vec3, deltaTime: real)
      requires Valid()
      modifies this`speed, this`destPos, this`lookDir, this`isMoving, this`isJumping
      ensures Valid()
      ensures !onControl || old(isFallDown) ==> unchanged(this)
      ensures onControl && !old(isFallDown) ==>
                && speed == SpeedAfterKeys(old(speed), keys, walkSpeed, runSpeed)
                && destPos == DestAfterKeys(old(destPos), keys, forward, right, deltaTime, speed, bodyPosition.y)
                && lookDir == (if useMouse then old(lookDir) else LookAfterKeys(old(lookDir), keys))
                && isMoving == (old(isMoving) || AnyDirection(keys))
                && isJumping == (old(isJumping) || keys.jumpPressed)
    {
      if !onControl || isFallDown {
        return;
      }
      InputRunKey(keys);
      InputDirectionKeys(keys, forward, right, deltaTime);
      if keys.jumpPressed {
        OnInputJumpKey();
      }
    }

    // -------------------------------------------------------------------------------------
    // Physics step

    /** Move: a pending move while standing takes the body to the destination and is done. */
    method Move()
      modifies this`curPos, this`bodyPosition, this`isMoving
      ensures old(isMoving) && !isFallDown ==>
                curPos == destPos && bodyPosition == destPos && !isMoving
      ensures !(old(isMoving) && !isFallDown) ==> unchanged(this)
    {
      if !isMoving || isFallDown {
        return;
      }
      curPos := destPos;
      bodyPosition := destPos;
      isMoving := false;
    }

    /** Jump: a pending jump while standing on the ground gives one upward impulse and is done. */
    method Jump()
      modifies this`impulses, this`isJumping
      ensures old(isJumping) && !isFallDown && isOnGround ==>
                impulses == old(impulses) + [jumpPower] && !isJumping
      ensures !(old(isJumping) && !isFallDown && isOnGround) ==> unchanged(this)
    {
      if !isJumping || isFallDown || !isOnGround {
        return;
      }
      impulses := impulses + [jumpPower];
      isJumping := false;
    }

    /** ChangeStateFallDown: only a character on the ground falls down, about the given axis. */
    method ChangeStateFallDown(axis: FallDownAxis)
      requires Valid()
      modifies this`fallDownAxis, this`isFallDown
      ensures Valid()
      ensures isOnGround ==> isFallDown && fallDownAxis == axis
      ensures !isOnGround ==> unchanged(this)
    {
      if !isOnGround {
        return;
      }
      fallDownAxis := axis;
      isFallDown := true;
    }

    /** CheckFallDown on the body's Euler angles about x and z, in degrees. */
    method CheckFallDown(eulerX: real, eulerZ: real)
      requires Valid()
      modifies this`fallDownAxis, this`isFallDown
      ensures Valid()
      ensures match TippedAxis(eulerX, eulerZ)
              case None => unchanged(this)
              case Some(axis) =>
                && (isOnGround ==> isFallDown && fallDownAxis == axis)
                && (!isOnGround ==> unchanged(this))
    {
      if eulerX >= 90.0 && eulerX <= 270.0 {
        ChangeStateFallDown(X);
      } else if eulerZ >= 90.0 && eulerZ <= 270.0 {
        ChangeStateFallDown(Z);
      }
    }

    /**
     * WakeUp: a fallen character that is not already getting up drops its pending move and
     * jump, becomes kinematic and starts getting up. The coroutine runs at once up to its
     * first wait; `finishedAtStart` says whether the body is already upright, in which case
     * it gets up within this call.
     */
    method WakeUp(finishedAtStart: bool)
      requires Valid()
      modifies this`isMoving, this`isJumping, this`isKinematic, this`isWakingUp, this`isFallDown
      ensures Valid()
      ensures !old(isFallDown) || old(isWakingUp) ==> unchanged(this)
      ensures old(isFallDown) && !old(isWakingUp) ==>
                && !isMoving && !isJumping
                && isWakingUp == !finishedAtStart
                && isFallDown == !finishedAtStart
                && isKinematic == !finishedAtStart
    {
      if !isFallDown || isWakingUp {
        return;
      }
      isMoving := false;
      isJumping := false;
      isKinematic := true;
      isWakingUp := true;
      if finishedAtStart {
        FinishWakeUp();
      }
    }

    /** The end of TryWakeUp and its callback: upright again, no longer kinematic. */
    method FinishWakeUp()
      requires isWakingUp
      modifies this`isWakingUp, this`isFallDown, this`isKinematic
      ensures !isWakingUp && !isFallDown && !isKinematic
    {
      isWakingUp := false;
      isFallDown := false;
      isKinematic := false;
    }

    /** TryWakeUp resumed after a wait: it finishes once the body is upright, else waits again. */
    method ResumeWakeUp(finished: bool)
      requires Valid() && isWakingUp
      modifies this`isWakingUp, this`isFallDown, this`isKinematic
      ensures Valid()
      ensures finished ==> !isWakingUp && !isFallDown && !isKinematic
      ensures !finished ==> unchanged(this)
    {
      if finished {
        FinishWakeUp();
      }
    }

    /** RotateWithKeyboard: while a move is pending and the mouse does not steer, the facing is used up. */
    method RotateWithKeyboard()
      modifies this`lookDir
      ensures isMoving && !useMouse ==> lookDir == LookDir(0.0, 0.0)
      ensures !(isMoving && !useMouse) ==> unchanged(this)
    {
      if !isMoving || useMouse {
        return;
      }
      lookDir := LookDir(0.0, 0.0);
    }

    // -------------------------------------------------------------------------------------
    // Ground contact

    /** CheckStandOnGround by tag: contact with a ground-tagged collider begins or ends. */
    method CheckStandOnGroundTag(tag: string, isEnter: bool)
      modifies this`isOnGround
      ensures tag == groundTagOrLayer ==> isOnGround == isEnter
      ensures tag != groundTagOrLayer ==> unchanged(this)
    {
      if tag == groundTagOrLayer {
        isOnGround := isEnter;
      }
    }

    /** CheckStandOnGround by layer; `groundLayer` is the layer Unity names `groundTagOrLayer`. */
    method CheckStandOnGroundLayer(layer: int, groundLayer: int, isEnter: bool)
      modifies this`isOnGround
      ensures layer == groundLayer ==> isOnGround == isEnter
      ensures layer != groundLayer ==> unchanged(this)
    {
      if layer == groundLayer {
        isOnGround := isEnter;
      }
    }

    /** CheckStandOnGround on a collider, by tag or by layer as configured. */
    method CheckStandOnGround(collider: Collider, groundLayer: int, isEnter: bool)
      modifies this`isOnGround
      ensures (if checkGroundByTagOrLayer == Tag then collider.tag == groundTagOrLayer else collider.layer == groundLayer)
              ==> isOnGround == isEnter
      ensures !(if checkGroundByTagOrLayer == Tag then collider.tag == groundTagOrLayer else collider.layer == groundLayer)
              ==> unchanged(this)
    {
      match checkGroundByTagOrLayer
      case Tag => CheckStandOnGroundTag(collider.tag, isEnter);
      case Layer => CheckStandOnGroundLayer(collider.layer, groundLayer, isEnter);
    }

    /** A handler of the foot's collision checker called with `collider`. */
    method OnFootEvent(handler: FootHandler, collider: Collider, groundLayer: int)
      modifies this`isOnGround
      ensures (if checkGroundByTagOrLayer == Tag then collider.tag == groundTagOrLayer else collider.layer == groundLayer)
              ==> isOnGround == handler.isEnter
      ensures !(if checkGroundByTagOrLayer == Tag then collider.tag == groundTagOrLayer else collider.layer == groundLayer)
              ==> unchanged(this)
    {
      CheckStandOnGround(collider, groundLayer, handler.isEnter);
    }

    /**
     * SetFootCollisionChecker: a collision checker added to the foot (Awake runs as it is
     * added), with contact beginning on collision enter and ending on collision exit.
     */
    method SetFootCollisionChecker() returns (checker: OtherCollisionChecker<FootHandler, Collider>)
      ensures fresh(checker) && checker.calls == []
      ensures forall e :: e in checker.events
      ensures checker.events[CollisionEvent.OnCollisionEnter] == [StandOnGround(true)]
      ensures checker.events[CollisionEvent.OnCollisionExit] == [StandOnGround(false)]
      ensures forall e :: e != CollisionEvent.OnCollisionEnter && e != CollisionEvent.OnCollisionExit ==> checker.events[e] == []
    {
      checker := new OtherCollisionChecker();
      var awake := checker.Awake();
      var added := checker.AddCollisionEvent(CollisionEvent.OnCollisionEnter, StandOnGround(true));
      added := checker.AddCollisionEvent(CollisionEvent.OnCollisionExit, StandOnGround(false));
    }

    // -------------------------------------------------------------------------------------
    // The frame callbacks

    /** Update: input, then the fall-down check (RotateWithMouse only turns transforms). */
    method Update(keys: Keys, forward: Vec3, right: Vec3, deltaTime: real, eulerX: real, eulerZ: real)
      requires Valid()
      modifies this`speed, this`destPos, this`lookDir, this`isMoving, this`isJumping, this`fallDownAxis, this`isFallDown
      ensures Valid()
      ensures old(isFallDown) ==> isMoving == old(isMoving) && isJumping == old(isJumping)
      ensures isFallDown <==> old(isFallDown) || (isOnGround && TippedAxis(eulerX, eulerZ).Some?)
    {
      InputKey(keys, forward, right, deltaTime);
      CheckFallDown(eulerX, eulerZ);
    }

    /**
     * FixedUpdate: getting up, turning, moving and jumping. Afterwards no move is pending,
     * and a jump is still pending only while the character is up but in the air.
     */
    method FixedUpdate(finishedAtStart: bool)
      requires Valid()
      modifies this`isMoving, this`isJumping, this`isKinematic, this`isWakingUp, this`isFallDown
      modifies this`lookDir, this`curPos, this`bodyPosition, this`impulses
      ensures Valid()
      ensures !isMoving
      ensures isJumping ==> old(isJumping) && !isFallDown && !isOnGround
      ensures old(isMoving) && !old(isFallDown) ==> curPos == destPos && bodyPosition == destPos
    {
      WakeUp(finishedAtStart);
      RotateWithKeyboard();
      Move();
      Jump();
    }
  }
}
