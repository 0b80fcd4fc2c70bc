/**
 * The relay and LED handlers of the camera server. Each `/relayN` request
 * flips the remembered state of relay N and drives its GPIO pin to match
 * (HIGH for on); `/ledon` and `/ledoff` drive the LED pin. Every handler
 * answers "OK". The pin numbers are set elsewhere in the firmware and are
 * parameters here; a pin's level is true for HIGH.
 */
module Relays {

  datatype Relay = Relay1 | Relay3 | Relay5 | Relay7

  /** The body every relay and LED handler answers with. */
  const Reply: string := "OK"

  /** The four `relayN_status` flags and the levels last written to the pins. */
  class Board {
    var relay1Status: bool
    var relay3Status: bool
    var relay5Status: bool
    var relay7Status: bool
    /** The level `digitalWrite` last put on each pin it has written. */
    var pins: map<int, bool>
    const relay1Pin: int
    const relay3Pin: int
    const relay5Pin: int
    const relay7Pin: int
    const ledPin: int

    function Status(r: Relay): bool
      reads this
    {
      match r
      case Relay1 => relay1Status
      case Relay3 => relay3Status
      case Relay5 => relay5Status
      case Relay7 => relay7Status
    }

    function Pin(r: Relay): int {
      match r
      case Relay1 => relay1Pin
      case Relay3 => relay3Pin
      case Relay5 => relay5Pin
      case Relay7 => relay7Pin
    }

    /** The five pins are different GPIOs. */
    predicate DistinctPins() {
      (forall r: Relay, t: Relay :: r != t ==> Pin(r) != Pin(t)) &&
      (forall r: Relay :: Pin(r) != ledPin)
    }

    /** A relay pin that has been written shows the relay's flag. */
    ghost predicate Valid()
      reads this
    {
      DistinctPins() &&
      forall r: Relay :: Pin(r) in pins ==> pins[Pin(r)] == Status(r)
    }

    /** Boot state: every flag false, no pin written yet by the handlers. */
    constructor (p1: int, p3: int, p5: int, p7: int, led: int)
      requires p1 != p3 && p1 != p5 && p1 != p7 && p3 != p5 && p3 != p7 && p5 != p7
      requires led != p1 && led != p3 && led != p5 && led != p7
      ensures Valid()
      ensures relay1Pin == p1 && relay3Pin == p3 && relay5Pin == p5 && relay7Pin == p7 && ledPin == led
      ensures forall r: Relay :: !Status(r)
      ensures pins == map[]
    {
      relay1Pin, relay3Pin, relay5Pin, relay7Pin, ledPin := p1, p3, p5, p7, led;
      relay1Status, relay3Status, relay5Status, relay7Status := false, false, false, false;
      pins := map[];
    }

    /** relay1_handler .. relay7_handler: flip the flag, write the pin to match, answer "OK". */
    method Toggle(r: Relay) returns (reply: string)
      requires Valid()
      modifies this
      ensures Valid()
      ensures Status(r) == !old(Status(r))
      ensures forall t: Relay :: t != r ==> Status(t) == old(Status(t))
      ensures pins == old(pins)[Pin(r) := Status(r)]
      ensures reply == Reply
    {
      match r {
        case Relay1 =>
          if relay1Status {
            pins := pins[relay1Pin := false];
            relay1Status := false;
          } else {
            pins := pins[relay1Pin := true];
            relay1Status := true;
          }
        case Relay3 =>
          if relay3Status {
            pins := pins[relay3Pin := false];
            relay3Status := false;
          } else {
            pins := pins[relay3Pin := true];
            relay3Status := true;
          }
        case Relay5 =>
          if relay5Status {
            pins := pins[relay5Pin := false];
            relay5Status := false;
          } else {
            pins := pins[relay5Pin := true];
            relay5Status := true;
          }
        case Relay7 =>
          if relay7Status {
            pins := pins[relay7Pin := false];
            relay7Status := false;
          } else {
            pins := pins[relay7Pin := true];
            relay7Status := true;
          }
      }
      assert forall t: Relay :: t != r ==> Pin(t) != Pin(r);
      reply := Reply;
    }

    /** ledon_handler: drive the LED pin HIGH. */
    method LedOn() returns (reply: string)
      requires Valid()
      modifies this
      ensures Valid()
      ensures forall r: Relay :: Status(r) == old(Status(r))
      ensures pins == old(pins)[ledPin := true]
      ensures reply == Reply
    {
      pins := pins[ledPin := true];
      reply := Reply;
    }

    /** ledoff_handler: drive the LED pin LOW. */
    method LedOff() returns (reply: string)
      requires Valid()
      modifies this
      ensures Valid()
      ensures forall r: Relay :: Status(r) == old(Status(r))
      ensures pins == old(pins)[ledPin := false]
      ensures reply == Reply
    {
      pins := pins[ledPin := false];
      reply := Reply;
    }
  }

  /** Two requests to the same relay leave its flag, and every other, as they were, with its pin showing it. */
  method ToggleTwice(b: Board, r: Relay)
    requires b.Valid()
    modifies b
    ensures b.Valid()
    ensures forall t: Relay :: b.Status(t) == old(b.Status(t))
    ensures b.pins == old(b.pins)[b.Pin(r) := old(b.Status(r))]
  {
    var first := b.Toggle(r);
    var second := b.Toggle(r);
  }
}
