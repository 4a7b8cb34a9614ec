/** The MSX mouse on a joystick port (`Mouse`).

    In mouse mode the computer pulses pin 8 (the strobe bit 0x04 of the
    written value) and reads the latched motion as four nibbles: high and
    low of X, then high and low of Y, each half of the accumulated relative
    motion.  When the left button is held while the mouse is plugged in, it
    emulates a joystick instead: each read turns the motion since the last
    read into direction bits. */
module MsxMouse {

  /** Joystick port bits; a button bit is set while the button is up. */
  const JOY_UP: bv8 := 0x01
  const JOY_DOWN: bv8 := 0x02
  const JOY_LEFT: bv8 := 0x04
  const JOY_RIGHT: bv8 := 0x08
  const JOY_BUTTONA: bv8 := 0x10
  const JOY_BUTTONB: bv8 := 0x20
  const DIRECTIONS: bv8 := 0x0F

  /** Motion smaller than this on both axes is no joystick direction. */
  const TRESHOLD: int := 2
  /** Host motion is divided by this before it is reported. */
  const SCALE: int := 2

  /** The nibble the next read returns. */
  const FAZE_XHIGH: int := 0
  const FAZE_XLOW: int := 1
  const FAZE_YHIGH: int := 2
  const FAZE_YLOW: int := 3

  const STROBE: bv8 := 0x04
  /** Ticks without a write after which the protocol restarts. */
  const TIMEOUT: int := 1000

  /** The bounds of the accumulated relative motion. */
  const REL_MIN: int := -128 * SCALE
  const REL_MAX: int := 127 * SCALE

  datatype Button = LeftButton | RightButton | OtherButton(id: int)

  /** The host input events the mouse listens to. */
  datatype Event =
    | Motion(x: int, y: int)
    | ButtonDown(button: Button)
    | ButtonUp(button: Button)
    | OtherEvent

  function Abs(v: int): (r: nat)
    ensures r == v || r == -v
  {
    if v > 0 then v else -v
  }

  function Dist(a: int, b: int): nat
  {
    Abs(a - b)
  }

  /** `rel / SCALE` with C++ division, which truncates toward zero. */
  function Scaled(rel: int): (r: int)
    ensures rel >= 0 ==> 0 <= r && SCALE * r <= rel < SCALE * r + SCALE
    ensures rel < 0 ==> r <= 0 && SCALE * r - SCALE < rel <= SCALE * r
  {
    if rel >= 0 then rel / SCALE else -((-rel) / SCALE)
  }

  /** `(v >> 4) & 0x0F` on a two's complement int: bits 4 to 7 of `v`. */
  function HighNibble(v: int): (r: int)
    ensures 0 <= r < 16
  {
    (v / 16) % 16
  }

  /** `v & 0x0F` on a two's complement int: bits 0 to 3 of `v`. */
  function LowNibble(v: int): (r: int)
    ensures 0 <= r < 16
  {
    v % 16
  }

  /** What a read returns in mouse mode: the nibble the phase selects,
      ORed with the button and direction bits of `status`. */
  function ReadByte(faze: int, xrel: int, yrel: int, status: bv8): (r: bv8)
    requires FAZE_XHIGH <= faze <= FAZE_YLOW
    ensures r & 0xF0 == status & 0xF0
  {
    if faze == FAZE_XHIGH then HighNibble(Scaled(xrel)) as bv8 | status
    else if faze == FAZE_XLOW then LowNibble(Scaled(xrel)) as bv8 | status
    else if faze == FAZE_YHIGH then HighNibble(Scaled(yrel)) as bv8 | status
    else LowNibble(Scaled(yrel)) as bv8 | status
  }

  /** How the computer puts a motion back together from the two nibbles it
      read: the low nibbles of the two reads as one signed byte. */
  function HostDelta(high: bv8, low: bv8): (r: int)
    ensures -128 <= r <= 127
  {
    var b := (high & 0x0F) as int * 16 + (low & 0x0F) as int;
    if b >= 128 then b - 256 else b
  }

  /** Bits 4 to 7 and bits 0 to 3 of a value are its two's complement
      byte. */
  lemma NibblesAreByte(v: int)
    ensures HighNibble(v) * 16 + LowNibble(v) == v % 256
  {
    var q := v / 16;
    var lo := v % 16;
    assert v == 16 * q + lo;
    assert q == 16 * (q / 16) + q % 16;
    assert v == 256 * (q / 16) + (16 * (q % 16) + lo);
    assert 0 <= 16 * (q % 16) + lo < 256;
  }

  /** Round trip of the mouse protocol: with no direction bit set in
      `status`, the two X reads and the two Y reads give the computer the
      latched motion divided by SCALE. */
  lemma ReadsRecoverMotion(xrel: int, yrel: int, status: bv8)
    requires status & DIRECTIONS == 0
    requires REL_MIN <= xrel <= REL_MAX && REL_MIN <= yrel <= REL_MAX
    ensures HostDelta(ReadByte(FAZE_XHIGH, xrel, yrel, status), ReadByte(FAZE_XLOW, xrel, yrel, status))
            == Scaled(xrel)
    ensures HostDelta(ReadByte(FAZE_YHIGH, xrel, yrel, status), ReadByte(FAZE_YLOW, xrel, yrel, status))
            == Scaled(yrel)
  {
    NibbleOverStatus(Scaled(xrel), status);
    NibbleOverStatus(Scaled(yrel), status);
  }

  /** One axis of ReadsRecoverMotion. */
  lemma NibbleOverStatus(v: int, status: bv8)
    requires status & DIRECTIONS == 0
    requires -128 <= v <= 127
    ensures HostDelta(HighNibble(v) as bv8 | status, LowNibble(v) as bv8 | status) == v
  {
    var hi := HighNibble(v);
    var lo := LowNibble(v);
    DecodeNibbles(hi, lo, status);
    NibblesAreByte(v);
    SignedByteOf(v);
  }

  /** A value of [-128, 127] is its two's complement byte read back as
      signed. */
  lemma SignedByteOf(v: int)
    requires -128 <= v <= 127
    ensures var b := v % 256; (if b >= 128 then b - 256 else b) == v
  {
    if v < 0 {
      assert v % 256 == v + 256;
    }
  }

  /** The computer's decoding ignores the port bits when no direction bit
      is set: it sees the two nibbles as a signed byte. */
  lemma DecodeNibbles(hi: int, lo: int, status: bv8)
    requires 0 <= hi < 16 && 0 <= lo < 16 && status & DIRECTIONS == 0
    ensures var b := hi * 16 + lo;
      HostDelta(hi as bv8 | status, lo as bv8 | status) == if b >= 128 then b - 256 else b
  {
    var h, l := hi as bv8, lo as bv8;
    SmallRoundTrip(hi);
    SmallRoundTrip(lo);
    OrKeepsNibble(h, status);
    OrKeepsNibble(l, status);
  }

  lemma SmallRoundTrip(n: int)
    requires 0 <= n < 16
    ensures (n as bv8) as int == n
  {
  }

  /** ORing a nibble with bits that leave the low nibble clear keeps the
      nibble in the low four bits. */
  lemma OrKeepsNibble(n: bv8, status: bv8)
    requires n < 16 && status & DIRECTIONS == 0
    ensures ((n | status) & 0x0F) as int == n as int
  {
  }

  /** The direction bits the joystick emulation reports for a motion: none
      inside the dead zone; otherwise the horizontal bit when the motion is
      less than about 67.5 degrees off the X axis (12|dx| > 5|dy|, as
      tan(pi/8) is about 5/12) and the vertical bit likewise for the Y
      axis, so a diagonal motion sets both. */
  function Directions(dx: int, dy: int): (r: bv8)
    ensures r & !DIRECTIONS == 0
    ensures r & (JOY_LEFT | JOY_RIGHT) != JOY_LEFT | JOY_RIGHT
    ensures r & (JOY_UP | JOY_DOWN) != JOY_UP | JOY_DOWN
  {
    if Abs(dx) < TRESHOLD && Abs(dy) < TRESHOLD then 0
    else
      var horizontal: bv8 := if 12 * Abs(dx) > 5 * Abs(dy) then (if dx > 0 then JOY_RIGHT else JOY_LEFT) else 0;
      var vertical: bv8 := if 12 * Abs(dy) > 5 * Abs(dx) then (if dy > 0 then JOY_DOWN else JOY_UP) else 0;
      horizontal | vertical
  }

  /** Any motion outside the dead zone reports at least one direction. */
  lemma MotionGivesDirection(dx: int, dy: int)
    requires Abs(dx) >= TRESHOLD || Abs(dy) >= TRESHOLD
    ensures Directions(dx, dy) != 0
  {
    var ax, ay := Abs(dx), Abs(dy);
    if 12 * ax > 5 * ay {
      assert Directions(dx, dy) & (JOY_LEFT | JOY_RIGHT) != 0;
    } else {
      assert Directions(dx, dy) & (JOY_UP | JOY_DOWN) != 0;
    }
  }

  /** Mirroring a motion left to right swaps the LEFT and RIGHT bits. */
  lemma MirrorSwapsLeftRight(dx: int, dy: int)
    ensures Directions(-dx, dy) & JOY_LEFT != 0 <==> Directions(dx, dy) & JOY_RIGHT != 0
    ensures Directions(-dx, dy) & (JOY_UP | JOY_DOWN) == Directions(dx, dy) & (JOY_UP | JOY_DOWN)
  {
    assert Abs(-dx) == Abs(dx);
  }

  /** The port bits after the joystick emulation: the buttons as they
      were, the directions of the motion. */
  function JoystickStatus(status: bv8, dx: int, dy: int): (r: bv8)
    ensures r & !DIRECTIONS == status & !DIRECTIONS
    ensures r & DIRECTIONS == Directions(dx, dy)
  {
    (status & !DIRECTIONS) | Directions(dx, dy)
  }

  /** The phase after a write: the phase advances when the strobe level
      differs from the one the current phase was entered with, so X high
      follows a rising edge, X low a falling one, Y high a rising one and
      Y low a falling one. */
  function NextFaze(faze: int, value: bv8): (r: int)
    requires FAZE_XHIGH <= faze <= FAZE_YLOW
    ensures FAZE_XHIGH <= r <= FAZE_YLOW
    ensures r == faze || r == (faze + 1) % 4
    ensures r != faze <==> ((value & STROBE != 0) <==> faze % 2 == 1)
  {
    if faze == FAZE_XHIGH then (if value & STROBE == 0 then FAZE_XLOW else faze)
    else if faze == FAZE_XLOW then (if value & STROBE != 0 then FAZE_YHIGH else faze)
    else if faze == FAZE_YHIGH then (if value & STROBE == 0 then FAZE_YLOW else faze)
    else (if value & STROBE != 0 then FAZE_XHIGH else faze)
  }

  /** The phase machine reacts to edges, not levels: writing the same
      strobe level twice moves it at most once. */
  lemma SameLevelMovesOnce(faze: int, value: bv8)
    requires FAZE_XHIGH <= faze <= FAZE_YLOW
    ensures NextFaze(NextFaze(faze, value), value) == NextFaze(faze, value)
  {
  }

  /** A full strobe cycle (high, low, high, low) from the Y low phase visits
      X high, X low, Y high and returns to Y low. */
  lemma StrobeCycle(high: bv8, low: bv8)
    requires high & STROBE != 0 && low & STROBE == 0
    ensures NextFaze(FAZE_YLOW, high) == FAZE_XHIGH
    ensures NextFaze(FAZE_XHIGH, low) == FAZE_XLOW
    ensures NextFaze(FAZE_XLOW, high) == FAZE_YHIGH
    ensures NextFaze(FAZE_YHIGH, low) == FAZE_YLOW
  {
  }

  /** The accumulated motion is kept within what one signed byte can
      report after scaling: the nearest value of [REL_MIN, REL_MAX]. */
  function Clamp(v: int): (r: int)
    ensures REL_MIN <= r <= REL_MAX
    ensures InRange(v) ==> r == v
    ensures forall w :: REL_MIN <= w <= REL_MAX ==> Dist(v, r) <= Dist(v, w)
  {
    if v > REL_MAX then REL_MAX
    else if v < REL_MIN then REL_MIN
    else v
  }

  /** The port bit a button drives; other buttons drive none. */
  function ButtonBit(b: Button): (r: bv8)
    ensures b.LeftButton? ==> r == JOY_BUTTONA
    ensures b.RightButton? ==> r == JOY_BUTTONB
    ensures b.OtherButton? ==> r == 0
  {
    match b
    case LeftButton => JOY_BUTTONA
    case RightButton => JOY_BUTTONB
    case OtherButton(_) => 0
  }

  predicate InRange(v: int)
  {
    REL_MIN <= v <= REL_MAX
  }

  /** The port bits `emulateJoystick` computes: the direction bits are
      cleared, then set from the signs of the motion and the ratio of its
      components, as `Directions` describes. */
  method JoystickBits(status: bv8, deltax: int, deltay: int) returns (r: bv8)
    ensures r == JoystickStatus(status, deltax, deltay)
  {
    r := status & !(JOY_UP | JOY_DOWN | JOY_LEFT | JOY_RIGHT);
    var absx := if deltax > 0 then deltax else -deltax;
    var absy := if deltay > 0 then deltay else -deltay;
    if absx < TRESHOLD && absy < TRESHOLD {
      return;
    }
    ghost var cleared := r;
    assert cleared | Directions(deltax, deltay) == JoystickStatus(status, deltax, deltay);
    assert absx == Abs(deltax) && absy == Abs(deltay);
    if deltax > 0 {
      if deltay > 0 {
        assert Directions(deltax, deltay)
               == (if 12 * absx > 5 * absy then JOY_RIGHT else 0) | (if 12 * absy > 5 * absx then JOY_DOWN else 0);
        if 12 * absx > 5 * absy { r := r | JOY_RIGHT; }
        if 12 * absy > 5 * absx { r := r | JOY_DOWN; }
        assert r == cleared | Directions(deltax, deltay);
      } else {
        assert Directions(deltax, deltay)
               == (if 12 * absx > 5 * absy then JOY_RIGHT else 0) | (if 12 * absy > 5 * absx then JOY_UP else 0);
        if 12 * absx > 5 * absy { r := r | JOY_RIGHT; }
        if 12 * absy > 5 * absx { r := r | JOY_UP; }
        assert r == cleared | Directions(deltax, deltay);
      }
    } else {
      if deltay > 0 {
        assert Directions(deltax, deltay)
               == (if 12 * absx > 5 * absy then JOY_LEFT else 0) | (if 12 * absy > 5 * absx then JOY_DOWN else 0);
        if 12 * absx > 5 * absy { r := r | JOY_LEFT; }
        if 12 * absy > 5 * absx { r := r | JOY_DOWN; }
        assert r == cleared | Directions(deltax, deltay);
      } else {
        assert Directions(deltax, deltay)
               == (if 12 * absx > 5 * absy then JOY_LEFT else 0) | (if 12 * absy > 5 * absx then JOY_UP else 0);
        if 12 * absx > 5 * absy { r := r | JOY_LEFT; }
        if 12 * absy > 5 * absx { r := r | JOY_UP; }
        assert r == cleared | Directions(deltax, deltay);
      }
    }
  }

  class Mouse {
    /** The button and direction bits of the port; bits 6 and 7 unused. */
    var status: bv8
    var faze: int
    /** The motion latched for the computer to read. */
    var xrel: int
    var yrel: int
    /** The motion accumulated since the last latch or joystick read. */
    var curxrel: int
    var curyrel: int
    var mouseMode: bool
    /** The tick of the last write in mouse mode. */
    var lastTime: int

    ghost predicate Valid()
      reads this
    {
      && FAZE_XHIGH <= faze <= FAZE_YLOW
      && InRange(xrel) && InRange(yrel) && InRange(curxrel) && InRange(curyrel)
      && status & 0xC0 == 0
    }

    /** Both buttons up, waiting in the Y low phase, no motion, mouse
        mode. */
    constructor ()
      ensures Valid()
      ensures status == JOY_BUTTONA | JOY_BUTTONB && faze == FAZE_YLOW
      ensures xrel == 0 && yrel == 0 && curxrel == 0 && curyrel == 0
      ensures mouseMode && lastTime == 0
    {
      status := JOY_BUTTONA | JOY_BUTTONB;
      faze := FAZE_YLOW;
      xrel, yrel, curxrel, curyrel := 0, 0, 0, 0;
      mouseMode := true;
      lastTime := 0;
    }

    /** `plugHelper`: the mouse emulates a joystick when it is plugged in
        with the left button held. */
    method Plug(time: int)
      requires Valid()
      modifies this`mouseMode, this`lastTime
      ensures Valid()
      ensures mouseMode <==> status & JOY_BUTTONA != 0
      ensures mouseMode ==> lastTime == time
      ensures !mouseMode ==> lastTime == old(lastTime)
    {
      if status & JOY_BUTTONA != 0 {
        mouseMode := true;
        lastTime := time;
      } else {
        mouseMode := false;
      }
    }

    /** `read`: in mouse mode the selected nibble and the port bits, with
        no change of state; in joystick mode the port bits after the
        emulation. */
    method Read() returns (r: bv8)
      requires Valid()
      modifies this`status, this`curxrel, this`curyrel
      ensures Valid()
      ensures mouseMode ==>
                && r == ReadByte(faze, xrel, yrel, status)
                && status == old(status) && curxrel == old(curxrel) && curyrel == old(curyrel)
      ensures !mouseMode ==>
                && status == JoystickStatus(old(status), old(curxrel), old(curyrel))
                && curxrel == 0 && curyrel == 0 && r == status
    {
      if mouseMode {
        if faze == FAZE_XHIGH {
          r := HighNibble(Scaled(xrel)) as bv8 | status;
        } else if faze == FAZE_XLOW {
          r := LowNibble(Scaled(xrel)) as bv8 | status;
        } else if faze == FAZE_YHIGH {
          r := HighNibble(Scaled(yrel)) as bv8 | status;
        } else {
          r := LowNibble(Scaled(yrel)) as bv8 | status;
        }
      } else {
        EmulateJoystick();
        r := status;
      }
    }

    /** `emulateJoystick`: the direction bits become those of the motion
        accumulated since the last read, which is then discarded. */
    method EmulateJoystick()
      requires Valid()
      modifies this`status, this`curxrel, this`curyrel
      ensures Valid()
      ensures status == JoystickStatus(old(status), old(curxrel), old(curyrel))
      ensures curxrel == 0 && curyrel == 0
    {
      var deltax := curxrel;
      curxrel := 0;
      var deltay := curyrel;
      curyrel := 0;
      status := JoystickBits(status, deltax, deltay);
    }

    /** `write`: in mouse mode a long silence restarts the protocol at the
        Y low phase, the strobe level then moves the phase, and the edge
        that leaves Y low latches the accumulated motion for the next four
        reads.  In joystick mode a write is ignored. */
    method Write(value: bv8, time: int)
      requires Valid()
      modifies this`faze, this`xrel, this`yrel, this`curxrel, this`curyrel, this`lastTime
      ensures Valid()
      ensures !mouseMode ==>
                && faze == old(faze) && lastTime == old(lastTime)
                && xrel == old(xrel) && yrel == old(yrel)
                && curxrel == old(curxrel) && curyrel == old(curyrel)
      ensures mouseMode ==>
                var start := if time - old(lastTime) >= TIMEOUT then FAZE_YLOW else old(faze);
                var latch := start == FAZE_YLOW && value & STROBE != 0;
                && lastTime == time
                && faze == NextFaze(start, value)
                && (latch ==> xrel == old(curxrel) && yrel == old(curyrel) && curxrel == 0 && curyrel == 0)
                && (!latch ==> xrel == old(xrel) && yrel == old(yrel)
                               && curxrel == old(curxrel) && curyrel == old(curyrel))
    {
      if mouseMode {
        var delta := time - lastTime;
        lastTime := time;
        if delta >= TIMEOUT {
          faze := FAZE_YLOW;
        }
        if faze == FAZE_XHIGH {
          if value & STROBE == 0 { faze := FAZE_XLOW; }
        } else if faze == FAZE_XLOW {
          if value & STROBE != 0 { faze := FAZE_YHIGH; }
        } else if faze == FAZE_YHIGH {
          if value & STROBE == 0 { faze := FAZE_YLOW; }
        } else {
          if value & STROBE != 0 {
            faze := FAZE_XHIGH;
            xrel := curxrel;
            yrel := curyrel;
            curxrel := 0;
            curyrel := 0;
          }
        }
      }
    }

    /** The motion case of `signalEvent`: the host motion is subtracted
        from the accumulated motion, which is clamped to what a read can
        report. */
    method Move(x: int, y: int)
      requires Valid()
      modifies this`curxrel, this`curyrel
      ensures Valid()
      ensures curxrel == Clamp(old(curxrel) - x) && curyrel == Clamp(old(curyrel) - y)
    {
      curxrel := curxrel - x;
      curyrel := curyrel - y;
      if curxrel > 127 * SCALE { curxrel := 127 * SCALE; }
      if curxrel < -128 * SCALE { curxrel := -128 * SCALE; }
      if curyrel > 127 * SCALE { curyrel := 127 * SCALE; }
      if curyrel < -128 * SCALE { curyrel := -128 * SCALE; }
    }

    /** The button-down case of `signalEvent`: a left or right press
        clears its port bit (the bit is active low); other buttons are
        ignored. */
    method Press(b: Button)
      requires Valid()
      modifies this`status
      ensures Valid()
      ensures status == old(status) & !ButtonBit(b)
      ensures status & ButtonBit(b) == 0
    {
      match b {
        case LeftButton => status := status & !JOY_BUTTONA;
        case RightButton => status := status & !JOY_BUTTONB;
        case OtherButton(_) =>
      }
    }

    /** The button-up case of `signalEvent`: a left or right release sets
        its port bit; other buttons are ignored. */
    method Release(b: Button)
      requires Valid()
      modifies this`status
      ensures Valid()
      ensures status == old(status) | ButtonBit(b)
      ensures status & ButtonBit(b) == ButtonBit(b)
    {
      match b {
        case LeftButton => status := status | JOY_BUTTONA;
        case RightButton => status := status | JOY_BUTTONB;
        case OtherButton(_) =>
      }
    }

    /** `signalEvent`: motion and button events reach the port state;
        anything else is ignored. */
    method SignalEvent(e: Event)
      requires Valid()
      modifies this`status, this`curxrel, this`curyrel
      ensures Valid()
      ensures e.Motion? ==>
                && curxrel == Clamp(old(curxrel) - e.x) && curyrel == Clamp(old(curyrel) - e.y)
                && status == old(status)
      ensures e.ButtonDown? ==>
                status == old(status) & !ButtonBit(e.button)
                && curxrel == old(curxrel) && curyrel == old(curyrel)
      ensures e.ButtonUp? ==>
                status == old(status) | ButtonBit(e.button)
                && curxrel == old(curxrel) && curyrel == old(curyrel)
      ensures e.OtherEvent? ==>
                status == old(status) && curxrel == old(curxrel) && curyrel == old(curyrel)
    {
      match e
      case Motion(x, y) => Move(x, y);
      case ButtonDown(b) => Press(b);
      case ButtonUp(b) => Release(b);
      case OtherEvent =>
    }
  }
}
