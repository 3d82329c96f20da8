/** Device registers and device semaphores: the index that doIO computes from a register address and
    the one that the interrupt handler computes from an interrupt line. */
module DeviceRegisters {

  const DEVINTNUM := 5
  const DEVPERINT := 8
  const DEV_IL_START := 3
  const IL_TERMINAL := 7
  const SEM_NUM := (DEVINTNUM + 1) * DEVPERINT

  /** Where the device registers begin and how long each of them is. */
  datatype Registers = Registers(start: nat, size: nat)

  /** A device on an interrupt line; of a terminal, its receiver or its transmitter. */
  datatype Unit = Unit(line: int, dev: int, transmitter: bool) {
    predicate Exists() {
      DEV_IL_START <= line <= IL_TERMINAL && 0 <= dev < DEVPERINT && (transmitter ==> line == IL_TERMINAL)
    }
  }

  /** DEV_REG_ADDR */
  function RegAddr(r: Registers, line: int, dev: int): int {
    r.start + (line - DEV_IL_START) * (DEVPERINT * r.size) + dev * r.size
  }

  /** The address with which a program asks for a unit: a transmitter's registers are the second
      half of its terminal's. */
  function CmdAddr(r: Registers, u: Unit): int {
    RegAddr(r, u.line, u.dev) + if u.transmitter then r.size / 2 else 0
  }

  /** The computation of doIO: interrupt line, offset within the line, index. */
  function RequestLine(r: Registers, cmdAddr: int): int
    requires r.size > 0
  {
    (cmdAddr - r.start) / (r.size * DEVPERINT) + DEV_IL_START
  }

  function RequestOffset(r: Registers, cmdAddr: int): int
    requires r.size > 0
  {
    cmdAddr - RegAddr(r, RequestLine(r, cmdAddr), 0)
  }

  function RequestIndex(r: Registers, cmdAddr: int): int
    requires r.size > 0
  {
    var line := RequestLine(r, cmdAddr);
    (line - DEV_IL_START) * DEVPERINT
    + RequestOffset(r, cmdAddr) / (if line == IL_TERMINAL then DEVPERINT else DEVPERINT * 2)
  }

  /** The bit of the installed-devices word that doIO tests. */
  function RequestBit(r: Registers, cmdAddr: int): int
    requires r.size > 0
  {
    RequestOffset(r, cmdAddr) / 16
  }

  /** The index that the interrupt handler uses for a unit. */
  function ServedIndex(u: Unit): (i: int)
    ensures u.Exists() ==> 0 <= i < SEM_NUM
  {
    (u.line - DEV_IL_START) * DEVPERINT
    + if u.line == IL_TERMINAL then u.dev * 2 + (if u.transmitter then 1 else 0) else u.dev
  }

  /** Within a line the address is the line's first register plus an offset below its length. */
  lemma LineOfAddr(r: Registers, u: Unit)
    requires u.Exists() && r.size > 0
    ensures RequestLine(r, CmdAddr(r, u)) == u.line
    ensures RequestOffset(r, CmdAddr(r, u)) == u.dev * r.size + if u.transmitter then r.size / 2 else 0
  {
    var off := u.dev * r.size + if u.transmitter then r.size / 2 else 0;
    assert u.dev * r.size <= 7 * r.size;
    var q, m := u.line - DEV_IL_START, r.size * DEVPERINT;
    assert CmdAddr(r, u) - r.start == q * m + off;
    QuotientOf(q, m, off);
  }

  lemma QuotientOf(q: int, m: int, off: int)
    requires 0 <= off < m
    ensures (q * m + off) / m == q
  {
    var x := q * m + off;
    var d := x / m;
    assert x == m * d + x % m;
    MulBelow(m, d, q - 1);
    MulBelow(m, q + 1, d);
    assert m * (q - 1) == q * m - m && m * (q + 1) == q * m + m;
  }

  lemma MulBelow(m: int, a: int, b: int)
    requires 0 < m
    ensures a <= b ==> m * a <= m * b
  {
  }

  /** doIO and the interrupt handler agree on the unit. */
  predicate Agrees(r: Registers, u: Unit)
    requires r.size > 0
  {
    RequestIndex(r, CmdAddr(r, u)) == ServedIndex(u) && RequestBit(r, CmdAddr(r, u)) == u.dev
  }

  /** doIO divides by constants instead of the register length; that is right for every unit exactly
      when registers are 16 (or 17) bytes long. */
  lemma IndexAgrees(r: Registers)
    requires r.size > 0
    ensures (forall u: Unit :: u.Exists() ==> Agrees(r, u)) <==> 16 <= r.size <= 17
  {
    if 16 <= r.size <= 17 {
      forall u: Unit | u.Exists()
        ensures Agrees(r, u)
      {
        LineOfAddr(r, u);
        assert u.dev * r.size == if r.size == 16 then u.dev * 16 else u.dev * 17;
      }
    } else {
      var a, b := Unit(IL_TERMINAL, 1, false), Unit(IL_TERMINAL, 7, false);
      LineOfAddr(r, a);
      LineOfAddr(r, b);
      assert !Agrees(r, a) || !Agrees(r, b);
    }
  }

  /** Every device semaphore belongs to a unit. */
  lemma IndexCovers(i: int)
    ensures 0 <= i < SEM_NUM <==> exists u: Unit :: u.Exists() && ServedIndex(u) == i
  {
    if 0 <= i < SEM_NUM {
      var u := if i < 32 then Unit(i / 8 + DEV_IL_START, i % 8, false) else Unit(IL_TERMINAL, (i - 32) / 2, i % 2 == 1);
      assert u.Exists() && ServedIndex(u) == i;
    }
  }

  /** And no two units share one, so what a unit signals is what its requesters wait for. */
  lemma IndexInjective(r: Registers, u: Unit, v: Unit)
    requires u.Exists() && v.Exists() && 16 <= r.size <= 17
    ensures RequestIndex(r, CmdAddr(r, u)) == ServedIndex(v) <==> u == v
  {
    IndexAgrees(r);
    assert Agrees(r, u);
    assert ServedIndex(u) == ServedIndex(v) ==> u.line == v.line;
  }

  predicate Bit(b: nat, i: nat)
    decreases i
  {
    if i == 0 then b % 2 == 1 else Bit(b / 2, i - 1)
  }

  lemma {:induction false} NoBits(i: nat)
    ensures !Bit(0, i)
    decreases i
  {
    if i > 0 {
      NoBits(i - 1);
    }
  }

  /** The position of the highest set bit, or 0. */
  function Top(b: nat): nat {
    if b <= 1 then 0 else 1 + Top(b / 2)
  }

  lemma {:induction false} TopIsHighest(b: nat)
    requires b > 0
    ensures Bit(b, Top(b)) && forall i: nat :: i > Top(b) ==> !Bit(b, i)
  {
    if b == 1 {
      forall i: nat | i > 0
        ensures !Bit(b, i)
      {
        NoBits(i - 1);
      }
    } else {
      TopIsHighest(b / 2);
      forall i: nat | i > Top(b)
        ensures !Bit(b, i)
      {
        assert !Bit(b / 2, i - 1);
      }
    }
  }

  function Pow2(n: nat): (r: nat)
    ensures r > 0
  {
    if n == 0 then 1 else 2 * Pow2(n - 1)
  }

  lemma PowersOfTwo()
    ensures Pow2(0) == 1 && Pow2(1) == 2 && Pow2(2) == 4 && Pow2(3) == 8
    ensures Pow2(4) == 16 && Pow2(5) == 32 && Pow2(6) == 64 && Pow2(7) == 128 && Pow2(8) == 256
  {
    assert Pow2(4) == 16;
  }

  /** Testing a bit is shifting it to the last place. */
  lemma {:induction false} BitIsShift(b: nat, i: nat)
    ensures Bit(b, i) <==> b / Pow2(i) % 2 == 1
    decreases i
  {
    if i > 0 {
      BitIsShift(b / 2, i - 1);
      HalvedTwice(b, Pow2(i - 1));
    }
  }

  lemma HalvedTwice(b: nat, m: nat)
    requires m > 0
    ensures b / 2 / m == b / (2 * m)
  {
    var q := b / (2 * m);
    var x := b / 2;
    assert b == 2 * m * q + b % (2 * m);
    assert m * q <= x < m * q + m;
    QuotientOf(q, m, x - q * m);
  }

  /** The device with the highest number whose bit is set, or 0 if none is. */
  ghost predicate Foremost(b: nat, dev: nat) {
    if b == 0 then dev == 0
    else b / Pow2(dev) % 2 == 1 && forall i: nat :: i > dev ==> b / Pow2(i) % 2 == 0
  }

  lemma ForemostIsTop(b: nat, dev: nat)
    ensures Foremost(b, dev) <==> dev == Top(b)
  {
    if b > 0 {
      TopIsHighest(b);
      BitIsShift(b, dev);
      BitIsShift(b, Top(b));
      forall i: nat
        ensures Bit(b, i) <==> b / Pow2(i) % 2 == 1
      {
        BitIsShift(b, i);
      }
    }
  }

  /** getInterruptingDevice: of the devices pending on a line, the one with the highest number. */
  method InterruptingDevice(bitmap: nat) returns (dev: nat)
    requires bitmap < 256
    ensures dev < 8 && dev == Top(bitmap)
    ensures bitmap > 0 ==> Bit(bitmap, dev) && forall i: nat :: i > dev ==> !Bit(bitmap, i)
  {
    assert Pow2(8) == 256 by {
      assert Pow2(4) == 16;
    }
    var b: nat := bitmap;
    dev := 0;
    while b > 1 && dev < DEVPERINT
      invariant dev <= 8 && dev + Top(b) == Top(bitmap)
      invariant b < Pow2(8 - dev)
    {
      dev := dev + 1;
      b := b / 2;
    }
    if bitmap > 0 {
      TopIsHighest(bitmap);
    }
    TopBelow(bitmap, 8);
  }

  lemma {:induction false} TopBelow(b: nat, n: nat)
    requires b < Pow2(n) && n > 0
    ensures Top(b) < n
  {
    if b > 1 {
      TopBelow(b / 2, n - 1);
    }
  }

  /** What the interrupt handler reads: the slice timer and its enable bit, the interval timer, and
      for each device line whether it is pending and which of its devices are; and whether the two
      halves of the terminal that is served have an operation to acknowledge. */
  datatype Pending = Pending(slice: bool, te: bool, tick: bool, lines: seq<bool>, bitmap: seq<nat>,
                             transmitted: bool, received: bool) {
    predicate Ok() {
      |lines| == DEVINTNUM && |bitmap| == DEVINTNUM && forall i :: 0 <= i < DEVINTNUM ==> bitmap[i] < 256
    }

    /** The unit that is served on its line: the line is pending, the device is the foremost on it, and of a
        terminal the half has an operation to acknowledge. */
    ghost predicate Signals(u: Unit)
      requires Ok() && u.Exists()
    {
      && lines[u.line - DEV_IL_START] && Foremost(bitmap[u.line - DEV_IL_START], u.dev)
      && (u.line == IL_TERMINAL ==> if u.transmitter then transmitted else received)
    }
  }

  /** A pending line: the semaphore of the device that manageDevices serves on it. */
  function LineIndices(c: Pending, i: nat): (r: seq<nat>)
    requires c.Ok() && i < DEVINTNUM - 1
    ensures forall x :: x in r ==> x < SEM_NUM
  {
    if c.lines[i] then
      TopOfByte(c.bitmap[i]);
      [ServedIndex(Unit(DEV_IL_START + i, Top(c.bitmap[i]), false))]
    else []
  }

  /** The terminal that is served: its transmitter first, then its receiver. */
  function TerminalIndices(c: Pending): (r: seq<nat>)
    requires c.Ok()
    ensures forall x :: x in r ==> x < SEM_NUM
  {
    var dev := Top(c.bitmap[4]);
    TopOfByte(c.bitmap[4]);
    if !c.lines[4] then []
    else (if c.transmitted then [ServedIndex(Unit(IL_TERMINAL, dev, true))] else [])
         + (if c.received then [ServedIndex(Unit(IL_TERMINAL, dev, false))] else [])
  }

  /** The semaphores signalled by one exception, in order. */
  function ServedIndices(c: Pending): (r: seq<nat>)
    requires c.Ok()
    ensures forall x :: x in r ==> x < SEM_NUM
  {
    LineIndices(c, 0) + LineIndices(c, 1) + LineIndices(c, 2) + LineIndices(c, 3) + TerminalIndices(c)
  }

  lemma TopOfByte(b: nat)
    requires b < 256
    ensures Top(b) < DEVPERINT
  {
    assert Pow2(8) == 256 by {
      assert Pow2(4) == 16;
    }
    TopBelow(b, 8);
  }
}
